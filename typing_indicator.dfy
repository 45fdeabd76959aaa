/** The typing line, discord-frontend/src/components/chat/TypingIndicator.tsx. */
module TypingIndicator {
  import opened Text

  /** The verb: "is" for one name, "are" otherwise. */
  function Verb(count: nat): string {
    if count == 1 then "is" else "are"
  }

  /** The rendered text: nothing for an empty list; otherwise the names
      joined with ", ", the verb and "typing...". */
  function TypingLine(typingUsers: seq<string>): (r: Option<string>)
    ensures r.None? <==> typingUsers == []
    ensures r.Some? ==> r.value == Join(typingUsers, ", ") + " " + Verb(|typingUsers|) + " typing..."
  {
    if |typingUsers| == 0 then None
    else Some(Join(typingUsers, ", ") + Tail(|typingUsers|))
  }

  /** The names come first, in the order given: the line starts with the
      first name. */
  lemma {:induction false} JoinStartsWithFirst(names: seq<string>)
    requires names != []
    ensures StartsWith(Join(names, ", "), names[0])
  {
    var j := Join(names, ", ");
    if |names| > 1 {
      assert j == names[0] + (", " + Join(names[1..], ", "));
    }
    assert j[..|names[0]|] == names[0];
  }

  /** What follows the names. */
  function Tail(count: nat): string {
    " " + Verb(count) + " typing..."
  }

  /** The part after the names ends with "typing...". */
  lemma TailEnds(count: nat)
    ensures |Tail(count)| >= 9 && Tail(count)[|Tail(count)| - 9..] == "typing..."
  {
    var t := Tail(count);
    assert t == (" " + Verb(count) + " ") + "typing...";
  }

  /** The line starts with the first name and ends with "typing..."; a
      single name reads "<name> is typing...". */
  lemma TypingLineShape(typingUsers: seq<string>)
    requires typingUsers != []
    ensures var line := TypingLine(typingUsers).value;
            StartsWith(line, typingUsers[0]) && line[|line| - 9..] == "typing..."
    ensures |typingUsers| == 1 ==> TypingLine(typingUsers).value == typingUsers[0] + " is typing..."
  {
    var j := Join(typingUsers, ", ");
    var t := Tail(|typingUsers|);
    var line := TypingLine(typingUsers).value;
    assert line == j + t;
    JoinStartsWithFirst(typingUsers);
    assert line[..|typingUsers[0]|] == j[..|typingUsers[0]|];
    TailEnds(|typingUsers|);
    assert line[|line| - 9..] == t[|t| - 9..];
  }
}
