/**
 * The `/list` command's text (main.py:74-83): a fixed message for an empty
 * roster, otherwise one `name - timezone` line per entry, in roster order,
 * joined by newlines. `Split` is an independent reading of such a text back
 * into its lines, and the round trip shows there is exactly one line per entry.
 */
module Listing {
  import opened Roster

  const NoUsersMessage: string := "There are no users in the Niche Wordle rotation."
  const Newline: char := '\n'

  /** One roster entry as the listing renders it. */
  function Line(e: Entry): string
  {
    e.name + " - " + e.timezone
  }

  /** The rendered line of every entry, in roster order. */
  function Lines(users: Users): (ls: seq<string>)
    ensures |ls| == |users|
    ensures forall i :: 0 <= i < |users| ==> ls[i] == Line(users[i].entry)
  {
    seq(|users|, i requires 0 <= i < |users| => Line(users[i].entry))
  }

  /** Python's `sep.join(parts)` for a one-character separator. */
  function Join(parts: seq<string>, sep: char): string
  {
    if parts == [] then ""
    else if |parts| == 1 then parts[0]
    else parts[0] + [sep] + Join(parts[1..], sep)
  }

  /** Cuts a text at every `sep`: always at least one (possibly empty) piece. */
  function Split(s: string, sep: char): (pieces: seq<string>)
    ensures |pieces| >= 1
  {
    if s == [] then [""]
    else
      var rest := Split(s[1..], sep);
      if s[0] == sep then [""] + rest
      else [[s[0]] + rest[0]] + rest[1..]
  }

  /** The text the `/list` command sends for the current roster. */
  function ListText(users: Users): string
  {
    if users == [] then NoUsersMessage else Join(Lines(users), Newline)
  }

  /** Display names and timezones never contain a line break. */
  predicate SingleLine(users: Users)
  {
    forall i :: 0 <= i < |users| ==> Newline !in users[i].entry.name && Newline !in users[i].entry.timezone
  }

  /** A piece without the separator splits into itself, and a separator after it starts a new piece. */
  lemma {:induction false} SplitPrefix(a: string, b: string, sep: char)
    requires sep !in a
    ensures Split(a, sep) == [a]
    ensures Split(a + [sep] + b, sep) == [a] + Split(b, sep)
  {
    if a != [] {
      assert (a + [sep] + b)[1..] == a[1..] + [sep] + b;
      SplitPrefix(a[1..], b, sep);
      assert [a[0]] + a[1..] == a;
    } else {
      assert a + [sep] + b == [sep] + b;
      assert ([sep] + b)[1..] == b;
    }
  }

  /** Splitting a join of separator-free pieces gives the pieces back. */
  lemma {:induction false} SplitJoin(parts: seq<string>, sep: char)
    requires parts != []
    requires forall i :: 0 <= i < |parts| ==> sep !in parts[i]
    ensures Split(Join(parts, sep), sep) == parts
  {
    if |parts| == 1 {
      SplitPrefix(parts[0], "", sep);
    } else {
      SplitJoin(parts[1..], sep);
      SplitPrefix(parts[0], Join(parts[1..], sep), sep);
      assert [parts[0]] + parts[1..] == parts;
    }
  }

  /**
   * An empty roster lists as the fixed message; a non-empty one as a text whose
   * lines are exactly the entries' `name - timezone` renderings, in roster order.
   */
  lemma ListTextLines(users: Users)
    requires SingleLine(users)
    ensures users == [] ==> ListText(users) == NoUsersMessage
    ensures users != [] ==> Split(ListText(users), Newline) == Lines(users)
    ensures users != [] ==> |Split(ListText(users), Newline)| == |users|
  {
    if users != [] {
      forall i | 0 <= i < |users| ensures Newline !in Lines(users)[i] {
        var e := users[i].entry;
        assert Lines(users)[i] == e.name + " - " + e.timezone;
      }
      SplitJoin(Lines(users), Newline);
    }
  }
}
