/** The delete dialog, discord-frontend/src/components/modals/DeleteMessageModal.tsx:
    the message preview and the callbacks its buttons make. */
module DeleteMessageModal {
  import opened Text

  /** The longest content shown whole. */
  const PreviewLimit: nat := 100

  /** `messagePreview`: the content when it has at most 100 characters,
      otherwise its first 100 followed by "...". */
  function Preview(content: string): (r: string)
    ensures |content| <= PreviewLimit ==> r == content
    ensures |content| > PreviewLimit ==> |r| == PreviewLimit + 3 && r[..PreviewLimit] == content[..PreviewLimit]
                                         && r[PreviewLimit..] == "..."
    ensures |r| <= PreviewLimit + 3
  {
    if |content| > PreviewLimit then content[..PreviewLimit] + "..." else content
  }

  /** A preview is its own preview. */
  lemma PreviewIdempotent(content: string)
    ensures Preview(Preview(content)) == Preview(content)
  {
    if |content| > PreviewLimit {
      var p := Preview(content);
      assert p[..PreviewLimit] == content[..PreviewLimit];
    }
  }

  /** The dialog's buttons. */
  datatype Button = DeleteForMeButton | DeleteForEveryoneButton

  /** The calls a click makes, in order. */
  datatype Call = OnDeleteForMe(messageId: string) | OnDeleteForEveryone(messageId: string) | OnClose

  /** The buttons shown: "Delete for Everyone" only when allowed. */
  function Buttons(canDeleteForEveryone: bool): (r: seq<Button>)
    ensures DeleteForMeButton in r
    ensures DeleteForEveryoneButton in r <==> canDeleteForEveryone
  {
    [DeleteForMeButton] + (if canDeleteForEveryone then [DeleteForEveryoneButton] else [])
  }

  /** `handleDeleteForMe` and `handleDeleteForEveryone`: the matching
      callback with the message's id, then `onClose`. */
  function Clicked(b: Button, messageId: string): (calls: seq<Call>)
    ensures |calls| == 2 && calls[1] == OnClose
    ensures calls[0] == (if b == DeleteForMeButton then OnDeleteForMe(messageId) else OnDeleteForEveryone(messageId))
  {
    match b
    case DeleteForMeButton => [OnDeleteForMe(messageId), OnClose]
    case DeleteForEveryoneButton => [OnDeleteForEveryone(messageId), OnClose]
  }

  /** Without permission, no click can delete for everyone. */
  lemma NoEveryoneWithoutPermission(messageId: string, b: Button)
    requires b in Buttons(false)
    ensures OnDeleteForEveryone(messageId) !in Clicked(b, messageId)
  {
  }
}
