/** The division of an input text into lines as std::getline performs it. */
module TextLines {

  predicate NoNewline(s: string) {
    forall i :: 0 <= i < |s| ==> s[i] != '\n'
  }

  /** The index of the first newline of `t` at or after `i`, or |t| when
      there is none. */
  function LineEnd(t: string, i: nat): (j: nat)
    requires i <= |t|
    ensures i <= j <= |t|
    ensures forall m :: i <= m < j ==> t[m] != '\n'
    ensures j < |t| ==> t[j] == '\n'
    decreases |t| - i
  {
    if i == |t| || t[i] == '\n' then i else LineEnd(t, i + 1)
  }

  /** The length of the first line of `t`: the characters before its first
      newline, or all of `t` when it has none. */
  function LineLength(t: string): (k: nat)
    ensures k <= |t|
    ensures forall m :: 0 <= m < k ==> t[m] != '\n'
    ensures k < |t| ==> t[k] == '\n'
  {
    LineEnd(t, 0)
  }

  /** The first line of `t`, without its newline. */
  function FirstLine(t: string): string {
    t[..LineLength(t)]
  }

  /** What follows the first line of `t` and its newline. */
  function AfterFirstLine(t: string): (r: string)
    ensures t != [] ==> |r| < |t|
  {
    var k := LineLength(t);
    if k < |t| then t[k + 1..] else []
  }

  /** The lines std::getline delivers from `t`: each newline ends a line and
      is dropped; a last line without a newline is delivered too; nothing is
      delivered after a final newline, and an empty text has no lines. */
  function Lines(t: string): (ls: seq<string>)
    ensures t == [] <==> ls == []
    ensures forall k :: 0 <= k < |ls| ==> NoNewline(ls[k])
    decreases |t|
  {
    if t == [] then [] else [FirstLine(t)] + Lines(AfterFirstLine(t))
  }

  /** The first line delivered is the first line of the text, and the
      others are the lines of what follows it. */
  lemma LinesHeadTail(t: string)
    requires t != []
    ensures Lines(t) != [] && Lines(t)[0] == FirstLine(t) && Lines(t)[1..] == Lines(AfterFirstLine(t))
  {
    assert Lines(t) == [FirstLine(t)] + Lines(AfterFirstLine(t));
  }

  /** The lines written back out, each ended by a newline. */
  function Join(ls: seq<string>): string {
    if ls == [] then [] else ls[0] + "\n" + Join(ls[1..])
  }

  /** `t` with a newline added unless it is empty or already ends in one. */
  function Terminated(t: string): string {
    if t == [] || t[|t| - 1] == '\n' then t else t + "\n"
  }

  lemma SplitAtNewline(t: string, k: nat)
    requires k < |t| && t[k] == '\n'
    ensures t == t[..k] + "\n" + t[k + 1..]
  {
    assert t[k..] == "\n" + t[k + 1..];
    assert t == t[..k] + t[k..];
  }

  lemma TerminatedAfterNewline(line: string, rest: string)
    ensures Terminated(line + "\n" + rest) == line + "\n" + Terminated(rest)
  {
    var t := line + "\n" + rest;
    if rest != [] {
      assert t[|t| - 1] == rest[|rest| - 1];
    }
  }

  /** Joining the lines of a text gives the text back, newline-terminated. */
  lemma {:induction false} JoinLines(t: string)
    ensures Join(Lines(t)) == Terminated(t)
    decreases |t|
  {
    if t != [] {
      var k := LineLength(t);
      var line := FirstLine(t);
      var rest := AfterFirstLine(t);
      JoinLines(rest);
      LinesHeadTail(t);
      assert Join(Lines(t)) == line + "\n" + Terminated(rest);
      if k < |t| {
        SplitAtNewline(t, k);
        TerminatedAfterNewline(line, rest);
      } else {
        assert line == t;
        assert t[|t| - 1] != '\n';
      }
    }
  }

  lemma {:induction false} LineEndAtNewline(l: string, rest: string, i: nat)
    requires NoNewline(l) && i <= |l|
    ensures LineEnd(l + "\n" + rest, i) == |l|
    decreases |l| - i
  {
    var t := l + "\n" + rest;
    if i < |l| {
      assert t[i] == l[i];
      LineEndAtNewline(l, rest, i + 1);
    } else {
      assert t[i] == '\n';
    }
  }

  /** Splitting joined lines gives the lines back, when none holds a newline. */
  lemma {:induction false} LinesOfJoin(ls: seq<string>)
    requires forall k :: 0 <= k < |ls| ==> NoNewline(ls[k])
    ensures Lines(Join(ls)) == ls
    decreases |ls|
  {
    if ls != [] {
      var rest := Join(ls[1..]);
      var t := ls[0] + "\n" + rest;
      assert Join(ls) == t;
      LineEndAtNewline(ls[0], rest, 0);
      var k := |ls[0]|;
      assert t[..k] == ls[0];
      assert t[k + 1..] == rest;
      LinesHeadTail(t);
      LinesOfJoin(ls[1..]);
      assert ls == [ls[0]] + ls[1..];
      assert Lines(t) == [Lines(t)[0]] + Lines(t)[1..];
    }
  }
}
