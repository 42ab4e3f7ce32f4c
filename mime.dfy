/**
 * How `send` chooses the `content_type` of an attachment from the MIME type
 * that the platform's type guesser reports for it.
 */
module Mime {
  import opened Wrappers
  import opened Records

  const ImageTypes: seq<string> :=
    ["image/apng", "image/avif", "image/gif", "image/jpeg", "image/png", "image/svg", "image/webp"]

  const DocumentTypes: seq<string> :=
    ["application/pdf", "application/vnd.ms-powerpoint", "application/msword", "application/vnd.ms-excel",
     "application/vnd.openxmlformats-officedocument.wordprocessingml.document",
     "application/vnd.openxmlformats-officedocument.presentationml.presentation",
     "application/vnd.openxmlformats-officedocument.spreadsheetml.sheet"]

  const AudioTypes: seq<string> := ["audio/aac", "audio/mp4", "audio/mpeg", "audio/amr", "audio/ogg"]

  const VideoTypes: seq<string> := ["video/mp4", "video/3gp"]

  /** True when `mime` was determined and appears in `types`. */
  predicate Listed(mime: Option<string>, types: seq<string>)
  {
    mime.Some? && mime.value in types
  }

  /**
   * The content type of an attachment: the category whose list holds the
   * MIME type, and "text" when the type is in no list or undetermined.
   * Since the lists are pairwise disjoint, each category is reached exactly
   * when the MIME type is in its list, whatever the order of the tests.
   */
  function AttachmentContentType(mime: Option<string>): (r: string)
    ensures r == IMAGE <==> Listed(mime, ImageTypes)
    ensures r == DOCUMENT <==> Listed(mime, DocumentTypes)
    ensures r == AUDIO <==> Listed(mime, AudioTypes)
    ensures r == VIDEO <==> Listed(mime, VideoTypes)
    ensures r == TEXT <==> !Listed(mime, ImageTypes + DocumentTypes + AudioTypes + VideoTypes)
  {
    ListsDisjoint();
    if Listed(mime, ImageTypes) then IMAGE
    else if Listed(mime, DocumentTypes) then DOCUMENT
    else if Listed(mime, AudioTypes) then AUDIO
    else if Listed(mime, VideoTypes) then VIDEO
    else TEXT
  }

  /** No MIME type is in two of the four lists. */
  lemma ListsDisjoint()
    ensures forall t :: t in ImageTypes ==> t !in DocumentTypes && t !in AudioTypes && t !in VideoTypes
    ensures forall t :: t in DocumentTypes ==> t !in AudioTypes && t !in VideoTypes
    ensures forall t :: t in AudioTypes ==> t !in VideoTypes
  {
  }
}
