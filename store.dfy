/**
 * The operations of the chat API that change the document store: `send`
 * appends a message, `last_message` finds or creates the contact a message
 * belongs to, `mark_as_read` sets a contact's read flag. The store is a
 * class holding the contact table (keyed by document name) and the message
 * table (in insertion order), with counters standing for the creation
 * timestamp and the document naming the framework supplies.
 */
module ChatStore {
  import opened Wrappers
  import opened Records
  import opened Mime
  import opened Transcript

  /** The reply of a whitelisted call. */
  datatype Reply = Ok | DoesNotExistError

  /** At most one contact per mobile number. */
  ghost predicate UniqueMobiles(contacts: map<ContactId, Contact>)
  {
    forall a, b :: a in contacts && b in contacts && contacts[a].mobileNo == contacts[b].mobileNo ==> a == b
  }

  /** Some contact has mobile number `key`. */
  ghost predicate HasMobile(contacts: map<ContactId, Contact>, key: Option<string>)
  {
    exists id :: id in contacts && contacts[id].mobileNo == key
  }

  /** The message `send` stores; `mime` is what the type guesser says of `content`. */
  function SentMessage(content: string, userNo: string, attachment: bool, mime: Option<string>, creation: nat): Message
  {
    if attachment then
      Message(creation, OUTGOING, Some(userNo), None, None, Some(content), AttachmentContentType(mime))
    else
      Message(creation, OUTGOING, Some(userNo), None, Some(content), None, TEXT)
  }

  /** The contact a message belongs to: the recipient of an outgoing message, else the sender. */
  function MobileKey(doc: Message): (key: Option<string>)
    ensures doc.kind == OUTGOING ==> key == doc.to
    ensures doc.kind != OUTGOING ==> key == doc.from
  {
    if doc.kind == OUTGOING then doc.to else doc.from
  }

  /** The contact `last_message` creates for a number no contact has yet. */
  function NewContact(key: Option<string>): Contact
  {
    Contact(key, key, HandlerObject, false)
  }

  /** The contact table after `last_message(doc)`; `freshId` is the name a new contact receives. */
  ghost function Upserted(contacts: map<ContactId, Contact>, freshId: ContactId, doc: Message): map<ContactId, Contact>
  {
    var key := MobileKey(doc);
    if HasMobile(contacts, key) then
      var id :| id in contacts && contacts[id].mobileNo == key;
      contacts[id := contacts[id].(lastMessage := Body(doc.message), isRead := false)]
    else
      contacts[freshId := NewContact(key)]
  }

  /** The contact table after `mark_as_read(room)`. */
  ghost function MarkedRead(contacts: map<ContactId, Contact>, room: ContactId): map<ContactId, Contact>
  {
    if room in contacts then contacts[room := contacts[room].(isRead := true)] else contacts
  }

  /**
   * A message whose number already has a contact updates that contact
   * alone: its preview becomes the message text and it becomes unread; no
   * contact is created and every other contact is unchanged.
   */
  lemma UpsertExisting(contacts: map<ContactId, Contact>, freshId: ContactId, doc: Message, id: ContactId)
    requires UniqueMobiles(contacts)
    requires id in contacts && contacts[id].mobileNo == MobileKey(doc)
    ensures var after := Upserted(contacts, freshId, doc);
      && after.Keys == contacts.Keys
      && after[id] == Contact(contacts[id].mobileNo, contacts[id].contactName, Body(doc.message), false)
      && forall other :: other in contacts && other != id ==> after[other] == contacts[other]
  {
  }

  /**
   * A message whose number has no contact adds exactly one contact, named
   * after the number and unread, and leaves every existing contact as it was.
   */
  lemma UpsertNew(contacts: map<ContactId, Contact>, freshId: ContactId, doc: Message)
    requires freshId !in contacts
    requires forall id :: id in contacts ==> contacts[id].mobileNo != MobileKey(doc)
    ensures var after := Upserted(contacts, freshId, doc);
      && after.Keys == contacts.Keys + {freshId}
      && |after| == |contacts| + 1
      && after[freshId].mobileNo == MobileKey(doc) && after[freshId].contactName == MobileKey(doc)
      && !after[freshId].isRead
      && forall other :: other in contacts ==> after[other] == contacts[other]
  {
  }

  /**
   * After `last_message` the message's number has exactly one contact, and
   * every number still has at most one.
   */
  lemma UpsertKeepsUnique(contacts: map<ContactId, Contact>, freshId: ContactId, doc: Message)
    requires UniqueMobiles(contacts)
    requires freshId !in contacts
    ensures UniqueMobiles(Upserted(contacts, freshId, doc))
    ensures var after := Upserted(contacts, freshId, doc);
      exists id :: id in after && after[id].mobileNo == MobileKey(doc)
  {
    var after := Upserted(contacts, freshId, doc);
    var key := MobileKey(doc);
    if HasMobile(contacts, key) {
      var id :| id in contacts && contacts[id].mobileNo == key;
      assert after[id].mobileNo == key;
    } else {
      assert after[freshId].mobileNo == key;
    }
  }

  /**
   * Two messages for a number that has no contact create exactly one
   * contact between them: the first creates it, the second updates it.
   */
  lemma UpsertTwiceCreatesOne(contacts: map<ContactId, Contact>, doc1: Message, doc2: Message, freshId: ContactId)
    requires UniqueMobiles(contacts)
    requires forall id :: id in contacts ==> id < freshId
    requires forall id :: id in contacts ==> contacts[id].mobileNo != MobileKey(doc1)
    requires MobileKey(doc2) == MobileKey(doc1)
    ensures var after := Upserted(Upserted(contacts, freshId, doc1), freshId + 1, doc2);
      && after.Keys == contacts.Keys + {freshId}
      && after[freshId].mobileNo == MobileKey(doc1)
      && !after[freshId].isRead
      && forall other :: other in contacts ==> after[other] == contacts[other]
  {
    var once := Upserted(contacts, freshId, doc1);
    UpsertNew(contacts, freshId, doc1);
    UpsertKeepsUnique(contacts, freshId, doc1);
    UpsertExisting(once, freshId + 1, doc2, freshId);
  }

  /**
   * The key of a message `send` stores is its recipient. Once `last_message`
   * has run on it, the recipient has exactly one contact and it is unread.
   */
  lemma SentMessageContact(contacts: map<ContactId, Contact>, freshId: ContactId, content: string, userNo: string,
                           attachment: bool, mime: Option<string>, creation: nat)
    requires UniqueMobiles(contacts)
    requires freshId !in contacts
    ensures MobileKey(SentMessage(content, userNo, attachment, mime, creation)) == Some(userNo)
    ensures var after := Upserted(contacts, freshId, SentMessage(content, userNo, attachment, mime, creation));
      && UniqueMobiles(after)
      && HasMobile(after, Some(userNo))
      && forall id :: id in after && after[id].mobileNo == Some(userNo) ==> !after[id].isRead
  {
    var m := SentMessage(content, userNo, attachment, mime, creation);
    UpsertKeepsUnique(contacts, freshId, m);
    if HasMobile(contacts, Some(userNo)) {
      var id :| id in contacts && contacts[id].mobileNo == Some(userNo);
      UpsertExisting(contacts, freshId, m, id);
    } else {
      UpsertNew(contacts, freshId, m);
    }
  }

  /**
   * `mark_as_read` sets the read flag of that one contact, keeps its other
   * fields, and changes no other contact; an unknown name changes nothing.
   */
  lemma MarkedReadEffect(contacts: map<ContactId, Contact>, room: ContactId)
    ensures var after := MarkedRead(contacts, room);
      && after.Keys == contacts.Keys
      && (room in contacts ==>
            after[room] == Contact(contacts[room].mobileNo, contacts[room].contactName, contacts[room].lastMessage, true))
      && forall other :: other in contacts && other != room ==> after[other] == contacts[other]
  {
  }

  /** Marking a contact read twice gives the same table as marking it once. */
  lemma MarkedReadIdempotent(contacts: map<ContactId, Contact>, room: ContactId)
    ensures MarkedRead(MarkedRead(contacts, room), room) == MarkedRead(contacts, room)
  {
  }

  /**
   * A message `send` stores shows up as the last row of the transcript of
   * its recipient. Its content is what was sent, except for an attachment
   * whose MIME type is in no list: that one keeps content type "text", so
   * the transcript shows its empty `message` column instead of `attach`.
   */
  lemma SendThenGetAll(log: seq<Message>, content: string, userNo: string, attachment: bool,
                       mime: Option<string>, creation: nat)
    requires forall k :: 0 <= k < |log| ==> log[k].creation <= creation
    ensures GetAll(log + [SentMessage(content, userNo, attachment, mime, creation)], userNo) ==
      GetAll(log, userNo) + [Row(creation, if userNo != "" then userNo else ADMINISTRATOR,
                                 if !attachment || AttachmentContentType(mime) != TEXT then Some(content) else None)]
  {
    GetAllAppend(log, SentMessage(content, userNo, attachment, mime, creation), userNo);
  }

  class Store {
    var messages: seq<Message>
    var contacts: map<ContactId, Contact>
    var nextCreation: nat
    var nextContactId: ContactId

    ghost predicate Valid()
      reads this
    {
      && Ascending(messages)
      && (forall k :: 0 <= k < |messages| ==> messages[k].creation < nextCreation)
      && (forall id :: id in contacts ==> id < nextContactId)
      && UniqueMobiles(contacts)
    }

    constructor ()
      ensures Valid()
      ensures messages == [] && contacts == map[] && nextCreation == 0 && nextContactId == 0
    {
      messages := [];
      contacts := map[];
      nextCreation := 0;
      nextContactId := 0;
    }

    /**
     * `send(content, user, room, user_no, attachment)`: stores one outgoing
     * message to `userNo`. `attachment` is the truthiness of the argument of
     * that name and `guessType` the first component of the platform's MIME
     * type guess for a path.
     */
    method Send(content: string, userNo: string, attachment: bool, guessType: string -> Option<string>)
      returns (r: Reply)
      requires Valid()
      modifies this
      ensures Valid()
      ensures messages == old(messages) + [SentMessage(content, userNo, attachment, guessType(content), old(nextCreation))]
      ensures var m := messages[|messages| - 1];
        && m.kind == OUTGOING && m.to == Some(userNo) && m.from == None
        && (attachment ==> m.attach == Some(content) && m.message == None
                           && m.contentType == AttachmentContentType(guessType(content)))
        && (!attachment ==> m.message == Some(content) && m.attach == None && m.contentType == TEXT)
      ensures nextCreation == old(nextCreation) + 1
      ensures contacts == old(contacts) && nextContactId == old(nextContactId)
      ensures r == Ok
    {
      var contentType := TEXT;
      var m;
      if attachment {
        var fileType := guessType(content);
        contentType := AttachmentContentType(fileType);
        m := Message(nextCreation, OUTGOING, Some(userNo), None, None, Some(content), contentType);
      } else {
        m := Message(nextCreation, OUTGOING, Some(userNo), None, Some(content), None, contentType);
      }
      messages := messages + [m];
      nextCreation := nextCreation + 1;
      r := Ok;
    }

    /**
     * `last_message(doc, method)`: if a contact has the message's number,
     * copy the message text into it and mark it unread; otherwise create a
     * contact for that number.
     */
    method LastMessage(doc: Message) returns (r: Reply)
      requires Valid()
      modifies this
      ensures Valid()
      ensures contacts == Upserted(old(contacts), old(nextContactId), doc)
      ensures old(nextContactId) !in old(contacts)
      ensures nextContactId == old(nextContactId) + (if HasMobile(old(contacts), MobileKey(doc)) then 0 else 1)
      ensures messages == old(messages) && nextCreation == old(nextCreation)
      ensures r == Ok
    {
      var mobileNo := MobileKey(doc);
      if exists id :: id in contacts && contacts[id].mobileNo == mobileNo {
        var contactName :| contactName in contacts && contacts[contactName].mobileNo == mobileNo;
        var chat := contacts[contactName];
        chat := chat.(lastMessage := Body(doc.message), isRead := false);
        contacts := contacts[contactName := chat];
      } else {
        contacts := contacts[nextContactId := NewContact(mobileNo)];
        nextContactId := nextContactId + 1;
      }
      r := Ok;
    }

    /** `mark_as_read(room)`: sets the contact's read flag; an unknown name is an error. */
    method MarkAsRead(room: ContactId) returns (r: Reply)
      requires Valid()
      modifies this
      ensures Valid()
      ensures contacts == MarkedRead(old(contacts), room)
      ensures r == if room in old(contacts) then Ok else DoesNotExistError
      ensures messages == old(messages) && nextCreation == old(nextCreation) && nextContactId == old(nextContactId)
    {
      if room !in contacts {
        return DoesNotExistError;
      }
      var doc := contacts[room];
      doc := doc.(isRead := true);
      contacts := contacts[room := doc];
      r := Ok;
    }
  }

  /**
   * A client: text "hello" sent to "+1555" on an empty store and then passed
   * to `last_message`, as the save hook would. One contact is created and
   * the transcript of "+1555" is the one message.
   */
  method HelloClient()
  {
    var s := new Store();
    var noGuess: string -> Option<string> := (path: string) => None;
    var r := s.Send("hello", "+1555", false, noGuess);
    var first := SentMessage("hello", "+1555", false, None, 0);
    assert s.messages == [first];
    r := s.LastMessage(first);
    UpsertNew(map[], 0, first);
    assert s.contacts == map[0 := Contact(Some("+1555"), Some("+1555"), HandlerObject, false)];
    SendThenGetAll([], "hello", "+1555", false, None, 0);
    assert GetAll(s.messages, "+1555") == [Row(0, "+1555", Some("hello"))];
  }

  /**
   * A client: two messages sent to a new number, each passed to
   * `last_message`, leave one contact, unread, previewing the second; marking
   * it read then sets its flag.
   */
  method TwoMessagesClient()
  {
    var s := new Store();
    var noGuess: string -> Option<string> := (path: string) => None;
    var r := s.Send("hello", "+1555", false, noGuess);
    var first := SentMessage("hello", "+1555", false, None, 0);
    assert s.messages == [first];
    r := s.LastMessage(first);
    r := s.Send("again", "+1555", false, noGuess);
    var second := SentMessage("again", "+1555", false, None, 1);
    assert s.messages[1] == second;
    r := s.LastMessage(second);
    UpsertTwiceCreatesOne(map[], first, second, 0);
    assert s.contacts.Keys == {0} && !s.contacts[0].isRead;
    r := s.MarkAsRead(0);
    assert r == Ok && s.contacts[0].isRead;
  }
}
