# WhatsApp chat API: a Dafny model

This project models the chat API of a WhatsApp integration built on the Frappe framework
(`whatsapp_chat/api/message.py`). The API has four operations over two document types,
"WhatsApp Message" and "WhatsApp Contact":

- `get_all(room, user_no)` returns the transcript with one phone number. It runs an SQL query that
  selects the messages whose `to` or `from` is that number and orders them by creation time. Each
  row has a sender label and a content column.
- `send(content, user, room, user_no, attachment)` stores one outgoing message to `user_no`. For an
  attachment, it first picks a content type from the attachment's guessed MIME type.
- `last_message(doc, method)` is the save hook of a message. It finds the contact of the message's
  number, refreshes its preview and marks it unread. If no such contact exists, it creates one.
- `mark_as_read(room)` sets a contact's read flag.

Files and modules:

- `wrappers.dfy` (`Wrappers`): `Option`, used for nullable columns and for the MIME guess.
- `records.dfy` (`Records`): the `Message` and `Contact` records and the string constants the code compares against.
- `mime.dfy` (`Mime`): the four MIME lists and the attachment classification.
- `transcript.dfy` (`Transcript`): `get_all` as a pure function of the message table. That function
  is a filter (`Select`), a stable insertion sort on creation (`SortByCreation`) and a projection (`RowOf`).
- `store.dfy` (`ChatStore`): class `Store`. It holds the contact table `map<ContactId, Contact>`, the
  message table `seq<Message>`, and two counters. The counters stand for the framework's creation
  timestamps and its document naming. `Send`, `LastMessage` and `MarkAsRead` are methods on it.
  Each has a specification function (`SentMessage`, `Upserted`, `MarkedRead`), and lemmas about
  those functions state the properties. `Store.Valid()` holds at most one contact per mobile number
  and a message table in creation order. Every method keeps it. Two client methods
  (`HelloClient`, `TwoMessagesClient`) chain send, `last_message` and mark-as-read on a new store, and
  their assertions about the resulting tables are proved.

Behaviour of the code that the model keeps as it is:

- An attachment whose MIME type is in none of the four lists keeps content type `"text"`.
  `SendThenGetAll` proves the consequence: such an attachment appears in the transcript with the
  unset `message` column as its content.
- `get_all` returns every matching message, whatever its content type.
- When the contact already exists, `last_message` copies the message's `message` column into its
  preview, even for an attachment, whose `message` is unset. A newly created contact gets the
  function object `last_message` as its preview instead.
- The file has no CRM-reference handling and emits no realtime events.

## Model

| member | source | states |
|---|---|---|
| `Mime.AttachmentContentType` | whatsapp_chat/api/message.py:43-52 | The result is "image", "document", "audio" or "video" exactly when the guessed MIME type is in that list. It is "text" exactly when the type is in none of the lists or is undetermined. |
| `Mime.ListsDisjoint` | whatsapp_chat/api/message.py:45-51 | No MIME type is in two of the four lists, so the order of the tests does not matter. |
| `Transcript.Insert` | whatsapp_chat/api/message.py:26 | Inserting into an ascending sequence gives an ascending sequence with the same elements plus the new one. |
| `Transcript.SortByCreation` | whatsapp_chat/api/message.py:26 | `order by creation asc`: the result is in ascending creation order and is a permutation of the input. |
| `Transcript.SelectCount` | whatsapp_chat/api/message.py:25 | The WHERE clause keeps each message whose `to` or `from` equals the number, as often as it is stored, and drops every other message. |
| `Transcript.GetAllCorrect` | whatsapp_chat/api/message.py:14-27 | `get_all` returns exactly one row per stored message involving the number. The rows are in ascending creation order, and each row is the projection of its message. |
| `Transcript.GetAllRowFields` | whatsapp_chat/api/message.py:15-24 | Each row's sender label is `to` when it is set and non-empty, else "Administrator". Its content is `message` when content_type is "text", else `attach`. Its message involves the number. |
| `Transcript.GetAllInTableOrder` | whatsapp_chat/api/message.py:25-26 | On a table already in creation order, the query returns the matching messages in table order. |
| `Transcript.GetAllAppend` | whatsapp_chat/api/message.py:14-27 | Adding a message no older than every stored one appends its row to the transcript of each number it involves. Every other transcript stays the same. |
| `ChatStore.SentMessageContact` | whatsapp_chat/api/message.py:74-93 | The lookup key of a message `send` stores is its recipient `user_no`. After `last_message` on it, that number has exactly one contact, the contact is unread, and every number still has at most one contact. |
| `ChatStore.UpsertExisting` | whatsapp_chat/api/message.py:80-85 | When the number has a contact, that contact's preview becomes the message text and it becomes unread. No contact is added, and every other contact is unchanged. |
| `ChatStore.UpsertNew` | whatsapp_chat/api/message.py:86-93 | When the number has no contact, exactly one contact is added. Its mobile number and contact name are the number and it is unread. All existing contacts are unchanged. |
| `ChatStore.UpsertKeepsUnique` | whatsapp_chat/api/message.py:80-93 | Afterwards the number has a contact, and every number still has at most one. |
| `ChatStore.UpsertTwiceCreatesOne` | whatsapp_chat/api/message.py:73-93 | Two messages for a new number create exactly one contact between them. That contact is unread, and the other contacts are unchanged. |
| `ChatStore.MarkedReadEffect` | whatsapp_chat/api/message.py:31-36 | Marking a contact read sets its read flag and keeps its other fields. It changes no other contact. An unknown name changes nothing. |
| `ChatStore.MarkedReadIdempotent` | whatsapp_chat/api/message.py:31-36 | Marking a contact read twice gives the same table as marking it once. |
| `ChatStore.SendThenGetAll` | whatsapp_chat/api/message.py:42-68 | A message `send` stores becomes the last row of its recipient's transcript. Its content is what was sent, except for an attachment of unrecognised or undetermined MIME type, whose content shows as NULL. |
| `ChatStore.Store.Send` | whatsapp_chat/api/message.py:40-70 | Appends exactly one message. It is outgoing, addressed to `user_no`, and has no `from`. For an attachment: content in `attach`, `message` unset, content type from the classification. Otherwise: content in `message`, `attach` unset, content type "text". Contacts are unchanged and the reply is "ok". |
| `ChatStore.Store.LastMessage` | whatsapp_chat/api/message.py:73-95 | The contact table becomes `Upserted` of the old one. That keeps at most one contact per number. The name counter advances exactly when a contact is created. The message table is unchanged and the reply is "ok". |
| `ChatStore.Store.MarkAsRead` | whatsapp_chat/api/message.py:30-36 | The contact table becomes `MarkedRead` of the old one. The reply is "ok" for a known contact and a does-not-exist error otherwise. |

## Left out

- Persistence internals are abstracted: the document store, `save()`, permission checks, document
  naming and timestamps. The store is two in-memory tables. A creation counter replaces the timestamp
  and a name counter replaces document naming. Storage failures are not modelled.
- The hook wiring that runs `last_message` when a message is saved is configured outside this file.
  `LastMessage` is a separate method, and `Send` does not call it. The two client methods call it
  explicitly.
- `mimetypes.guess_type` is a library call. `Send` takes it as a parameter `guessType: string -> Option<string>`.
- The SQL in `get_all` writes `"to"` and `"from"` in double quotes. That is a column name under ANSI
  quoting but a string literal under MariaDB's default mode. The model uses the evidently intended
  column meaning.
- When two messages have the same creation time, the SQL order is unspecified. `SortByCreation` keeps
  table order. With the store's counter, creation stamps never tie.
- A contact created by `last_message` gets the Python function object `last_message` as its preview.
  It is modelled as the placeholder `Preview.HandlerObject`, with no claim about its text.
- A message with no `to` or `from` gives a NULL lookup key. The model matches that key by equality
  against the contacts' (possibly unset) mobile numbers. Frappe's exact NULL / empty-string filter
  semantics are not modelled.
- Strings are compared by exact character equality. Database collation is not modelled: MariaDB's
  default collation compares case-insensitively and ignores trailing spaces. That collation applies
  to the contact lookup by `mobile_no` in `last_message`, and to the comparisons on `to`, `from` and
  `content_type` in `get_all`. For example, the database would find the contact "+1555" for the
  number "+1555 ", where the model creates a second contact.
- The `attachment` argument is modelled by its truthiness (`bool`).
- Unused parameters are dropped: `user` and `room` of `send`, and `room` of `get_all`. The
  `@frappe.whitelist` decorator only controls API exposure and is not modelled.
- The reply string "ok" is `Reply.Ok`. A missing contact in `mark_as_read` raises Frappe's
  does-not-exist error, which is `Reply.DoesNotExistError`.
- Concurrency is not modelled: the find-then-create race in `last_message` cannot occur in this
  sequential model. At most one contact per number is an invariant of this model because every contact
  is created by `LastMessage`. Contacts created by other parts of the application are outside it.
