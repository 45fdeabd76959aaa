/** The create-room dialog, discord-frontend/src/components/chat/CreateRoomModal.tsx:
    `handleSubmit`, which refuses a blank name, creates a public room at
    once and hands private and group rooms to the participant picker, and
    `handleClose`, which resets the form. The creation request is left to
    the network; whether it succeeded is a parameter. */
module CreateRoomForm {
  import opened Text

  /** The room type choices: 'private', 'group' and 'Public'. */
  datatype FormKind = FormPrivate | FormGroup | FormPublic

  /** The body of the public-room request. */
  datatype PublicRoomRequest = PublicRoomRequest(name: string, description: string)

  const NameRequired: string := "Room name is required"

  /** A call the dialog makes into its parent: `onCreateRoom` with the room
      the server answered with, or `onClose`. */
  datatype ParentCall = OnCreateRoom(newRoom: string) | OnClose

  /** The submit button's `disabled`. */
  predicate SubmitDisabled(isSubmitting: bool, roomName: string) {
    isSubmitting || IsBlank(roomName)
  }

  /** The dialog's state. */
  class CreateRoomDialog {
    var roomName: string
    var roomDescription: string
    var roomType: FormKind
    var isSubmitting: bool
    var nameError: string
    var showParticipantsModal: bool

    constructor ()
      ensures roomName == "" && roomDescription == "" && roomType == FormGroup
      ensures !isSubmitting && nameError == "" && !showParticipantsModal
    {
      roomName := "";
      roomDescription := "";
      roomType := FormGroup;
      isSubmitting := false;
      nameError := "";
      showParticipantsModal := false;
    }

    /** `handleClose()`: every field back to its start value, then the
        parent's `onClose`. */
    method HandleClose() returns (calls: seq<ParentCall>)
      modifies this`roomName, this`roomDescription, this`roomType, this`showParticipantsModal, this`nameError
      ensures roomName == "" && roomDescription == "" && roomType == FormGroup
      ensures !showParticipantsModal && nameError == ""
      ensures calls == [OnClose]
    {
      roomName := "";
      roomDescription := "";
      roomType := FormGroup;
      showParticipantsModal := false;
      nameError := "";
      calls := [OnClose];
    }

    /** `handleSubmit()`. A blank name only sets the name error. Otherwise
        the error is cleared; a public room is requested with the trimmed
        name and description, and a successful request hands the server's
        room (`newRoom`) to the parent's `onCreateRoom`, when there is one,
        and closes the form; any other type opens the participant picker
        instead. */
    method HandleSubmit(succeeded: bool, hasOnCreateRoom: bool, newRoom: string)
      returns (request: Option<PublicRoomRequest>, calls: seq<ParentCall>)
      modifies this
      ensures IsBlank(old(roomName)) ==>
                request.None? && nameError == NameRequired && roomName == old(roomName)
                && roomDescription == old(roomDescription) && roomType == old(roomType)
                && showParticipantsModal == old(showParticipantsModal) && isSubmitting == old(isSubmitting)
      ensures !IsBlank(old(roomName)) ==> nameError == ""
      ensures request.Some? <==> !IsBlank(old(roomName)) && old(roomType) == FormPublic
      ensures request.Some? ==> request.value == PublicRoomRequest(Trim(old(roomName)), Trim(old(roomDescription)))
                                && !isSubmitting
      ensures request.Some? && succeeded ==> roomName == "" && roomDescription == "" && roomType == FormGroup && !showParticipantsModal
      ensures request.Some? && !succeeded ==>
                && roomName == old(roomName) && roomType == old(roomType)
                && roomDescription == old(roomDescription) && showParticipantsModal == old(showParticipantsModal)
      ensures !IsBlank(old(roomName)) && old(roomType) != FormPublic ==>
                && showParticipantsModal && roomName == old(roomName) && roomType == old(roomType) && request.None?
                && roomDescription == old(roomDescription) && isSubmitting == old(isSubmitting)
      ensures calls == if request.Some? && succeeded
                       then (if hasOnCreateRoom then [OnCreateRoom(newRoom)] else []) + [OnClose]
                       else []
    {
      if IsBlank(roomName) {
        nameError := NameRequired;
        return None, [];
      }
      nameError := "";
      if roomType == FormPublic {
        isSubmitting := true;
        request := Some(PublicRoomRequest(Trim(roomName), Trim(roomDescription)));
        calls := [];
        if succeeded {
          calls := if hasOnCreateRoom then [OnCreateRoom(newRoom)] else [];
          var closing := HandleClose();
          calls := calls + closing;
        }
        isSubmitting := false;
      } else {
        showParticipantsModal := true;
        request, calls := None, [];
      }
    }
  }

  /** A name that passes the submit check is sent non-empty and needs no
      further trimming: the server's own trim leaves it as it is. */
  lemma SubmittedNameIsClean(roomName: string)
    requires !IsBlank(roomName)
    ensures Trim(roomName) != [] && Trim(Trim(roomName)) == Trim(roomName)
  {
    TrimIdempotent(roomName);
  }

  /** The submit button is enabled, when nothing is submitting, exactly when
      the name holds a character that is not whitespace, which is also when
      the handler goes past its name check. */
  lemma ButtonMatchesNameCheck(roomName: string)
    ensures !SubmitDisabled(false, roomName) <==> exists i :: 0 <= i < |roomName| && !IsWhitespace(roomName[i])
  {
    BlankIffAllWhitespace(roomName);
  }
}
