/**
 * The two document types the chat API reads and writes, "WhatsApp Message"
 * and "WhatsApp Contact", as plain values. A column that may be left unset
 * (SQL NULL) is an Option.
 */
module Records {
  import opened Wrappers

  /** The value of a message's `type` field for messages the API sends. */
  const OUTGOING: string := "Outgoing"

  /** The values `send` writes into a message's `content_type` field. */
  const TEXT: string := "text"
  const IMAGE: string := "image"
  const DOCUMENT: string := "document"
  const AUDIO: string := "audio"
  const VIDEO: string := "video"

  /**
   * A stored "WhatsApp Message". `creation` is the store-assigned creation
   * stamp; `kind` is the document's `type` field.
   */
  datatype Message = Message(
    creation: nat,
    kind: string,
    to: Option<string>,
    from: Option<string>,
    message: Option<string>,
    attach: Option<string>,
    contentType: string)

  /** The document name of a "WhatsApp Contact", assigned by the store. */
  type ContactId = nat

  /**
   * What a contact's `last_message` field holds: the text of a message, or
   * the hook function object itself, which is what a freshly created
   * contact receives.
   */
  datatype Preview = Body(text: Option<string>) | HandlerObject

  /** A stored "WhatsApp Contact". `isRead` is the 0/1 `is_read` flag. */
  datatype Contact = Contact(
    mobileNo: Option<string>,
    contactName: Option<string>,
    lastMessage: Preview,
    isRead: bool)
}
