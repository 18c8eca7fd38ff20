/**
 * The story graph of textAdventure/textAdventure.go: each node holds its
 * text and a list of choices; a choice is a command, a description and the
 * node it leads to. `addChoice` appends a choice; `executeCmd` follows the
 * first choice whose command equals the typed one, ignoring case.
 */
module TextAdventure {

  /** A choice is never changed after it is made, so it is a value. */
  datatype Choice = Choice(cmd: string, desc: string, nextNode: StoryNode)

  class StoryNode {
    const text: string
    var choices: seq<Choice>

    /** A node as the `storyNode{text: ...}` literals make it: no choices yet. */
    constructor (text: string)
      ensures this.text == text && choices == []
    {
      this.text := text;
      choices := [];
    }

    /** `addChoice`: the new choice goes last; the earlier ones stay, in order. */
    method AddChoice(cmd: string, desc: string, nextNode: StoryNode)
      modifies this`choices
      ensures choices == old(choices) + [Choice(cmd, desc, nextNode)]
    {
      var choice := Choice(cmd, desc, nextNode);
      choices := choices + [choice];
    }

    /**
     * `executeCmd`: the node of the first choice whose command matches `cmd`
     * without regard to case; later choices with the same command are never
     * taken. With no match the node stays where it is.
     */
    method ExecuteCmd(cmd: string) returns (next: StoryNode)
      ensures (exists i :: 0 <= i < |choices| && SameCommand(choices[i].cmd, cmd)) ==>
        exists i :: 0 <= i < |choices| && SameCommand(choices[i].cmd, cmd) && next == choices[i].nextNode &&
          forall j :: 0 <= j < i ==> !SameCommand(choices[j].cmd, cmd)
      ensures (forall i :: 0 <= i < |choices| ==> !SameCommand(choices[i].cmd, cmd)) ==> next == this
    {
      var i := 0;
      while i < |choices|
        invariant 0 <= i <= |choices|
        invariant forall j :: 0 <= j < i ==> !SameCommand(choices[j].cmd, cmd)
      {
        if ToLower(choices[i].cmd) == ToLower(cmd) {
          return choices[i].nextNode;
        }
        i := i + 1;
      }
      return this;
    }
  }

  /** `unicode.ToLower` on the ASCII letters: 'A'..'Z' become 'a'..'z', everything else stays. */
  function LowerChar(c: char): (d: char)
    ensures ('A' <= c <= 'Z') ==> d as int == c as int + 32
    ensures !('A' <= c <= 'Z') ==> d == c
  {
    if 'A' <= c <= 'Z' then (c as int + 32) as char else c
  }

  /** `strings.ToLower`, letter by letter. */
  function ToLower(s: string): (t: string)
    ensures |t| == |s| && forall i :: 0 <= i < |s| ==> t[i] == LowerChar(s[i])
  {
    seq(|s|, i requires 0 <= i < |s| => LowerChar(s[i]))
  }

  /** Two commands match when their lower-case forms are equal. */
  predicate SameCommand(a: string, b: string)
  {
    ToLower(a) == ToLower(b)
  }

  /** Commands that differ in an ASCII letter other than by case never match. */
  lemma DifferentLettersDiffer(a: string, b: string, k: nat)
    requires |a| == |b| && k < |a| && 'a' <= a[k] <= 'z' && 'a' <= b[k] <= 'z' && a[k] != b[k]
    ensures !SameCommand(a, b)
  {
    assert ToLower(a)[k] != ToLower(b)[k];
  }

  /**
   * The dark room of `main`: "s" leads to the grue, "O" to the lit room.
   * Typing "o" takes the lit room, because case is ignored; typing "x"
   * leaves the player in the dark room.
   */
  method DarkRoom() returns (lit: StoryNode, stay: StoryNode, room: StoryNode, litRoom: StoryNode)
    ensures lit == litRoom && stay == room
  {
    room := new StoryNode("Nothin'");
    litRoom := new StoryNode("Sumthin', you can go still north");
    var grue := new StoryNode("While stumbling around in darkness you get eaten by a grue");
    room.AddChoice("s", "Try to go back", grue);
    room.AddChoice("O", "Turn on your lantern", litRoom);
    assert |room.choices| == 2 && room.choices[0].cmd == "s" && room.choices[1].cmd == "O";
    assert room.choices[1].nextNode == litRoom;
    assert !SameCommand("s", "o") by { DifferentLettersDiffer("s", "o", 0); }
    assert SameCommand("O", "o");
    lit := room.ExecuteCmd("o");
    assert forall i :: 0 <= i < 2 && SameCommand(room.choices[i].cmd, "o") ==> i == 1;
    assert !SameCommand("s", "x") && !SameCommand("O", "x") by {
      DifferentLettersDiffer("s", "x", 0);
      assert ToLower("O") == "o";
      DifferentLettersDiffer("o", "x", 0);
    }
    stay := room.ExecuteCmd("x");
  }
}
