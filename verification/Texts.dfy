/** The string functions the models use. */
module Texts {

  /** `strings.Split` at a one-element separator: always at least one part. */
  function Split<T(==)>(s: seq<T>, sep: T): (parts: seq<seq<T>>)
    ensures parts != []
    decreases |s|
  {
    if s == [] then [[]] else
      var rest := Split(s[1..], sep);
      if s[0] == sep then [[]] + rest else [[s[0]] + rest[0]] + rest[1..]
  }

  function Join(parts: seq<string>, sep: string): string {
    if parts == [] then "" else if |parts| == 1 then parts[0] else parts[0] + sep + Join(parts[1..], sep)
  }

  lemma {:induction false} SplitPart<T>(part: seq<T>, tail: seq<T>, sep: T)
    requires sep !in part
    ensures Split(part + tail, sep) == [part + Split(tail, sep)[0]] + Split(tail, sep)[1..]
  {
    if part == [] {
      assert part + tail == tail;
      assert part + Split(tail, sep)[0] == Split(tail, sep)[0];
    } else {
      assert (part + tail)[1..] == part[1..] + tail;
      SplitPart(part[1..], tail, sep);
      assert [part[0]] + (part[1..] + Split(tail, sep)[0]) == part + Split(tail, sep)[0];
    }
  }

  /** Splitting undoes joining when no part contains the separator. */
  lemma {:induction false} SplitJoin(parts: seq<string>, sep: char)
    requires parts != [] && forall i :: 0 <= i < |parts| ==> sep !in parts[i]
    ensures Split(Join(parts, [sep]), sep) == parts
  {
    if |parts| == 1 {
      SplitPart(parts[0], "", sep);
      assert parts[0] + "" == parts[0];
    } else {
      var tail := [sep] + Join(parts[1..], [sep]);
      SplitJoin(parts[1..], sep);
      SplitPart(parts[0], tail, sep);
      assert tail[1..] == Join(parts[1..], [sep]);
      assert Join(parts, [sep]) == parts[0] + tail;
      assert parts[0] + "" == parts[0];
    }
  }

  /** A separator in the middle: both sides are split on their own. */
  lemma {:induction false} SplitBetween<T>(s: seq<T>, sep: T, t: seq<T>)
    ensures Split(s + [sep] + t, sep) == Split(s, sep) + Split(t, sep)
    decreases |s|
  {
    if s == [] {
      assert ([] + [sep] + t)[1..] == t;
    } else {
      assert (s + [sep] + t)[1..] == s[1..] + [sep] + t;
      SplitBetween(s[1..], sep, t);
    }
  }

  /** What is appended after a separator does not reach the first part. */
  lemma {:induction false} FirstPartStays<T>(s: seq<T>, tail: seq<T>, sep: T)
    requires sep in s
    ensures Split(s + tail, sep)[0] == Split(s, sep)[0]
    decreases |s|
  {
    assert (s + tail)[1..] == s[1..] + tail;
    if s[0] != sep {
      FirstPartStays(s[1..], tail, sep);
    }
  }

  /** The parts hold nothing but what was split, and no separator. */
  lemma {:induction false} PartsWithin<T>(s: seq<T>, sep: T)
    ensures forall i, x :: 0 <= i < |Split(s, sep)| && x in Split(s, sep)[i] ==> x in s
    ensures forall i :: 0 <= i < |Split(s, sep)| ==> sep !in Split(s, sep)[i]
    ensures forall i :: 0 <= i < |Split(s, sep)| ==> |Split(s, sep)[i]| <= |s|
    decreases |s|
  {
    if s != [] {
      PartsWithin(s[1..], sep);
      var rest := Split(s[1..], sep);
      assert forall x :: x in s[1..] ==> x in s;
      var parts := Split(s, sep);
      if s[0] == sep {
        assert parts == [[]] + rest;
        assert forall i :: 0 < i < |parts| ==> parts[i] == rest[i - 1];
      } else {
        assert parts[0] == [s[0]] + rest[0] && parts[1..] == rest[1..];
        assert sep !in rest[0];
        assert forall i :: 0 < i < |parts| ==> parts[i] == rest[i];
      }
    }
  }

  /** Joining with another separator replaces the one that was split at. */
  lemma {:induction false} JoinSplit(s: string, from: char, to: char)
    ensures |Join(Split(s, from), [to])| == |s|
    ensures forall i :: 0 <= i < |s| ==> Join(Split(s, from), [to])[i] == if s[i] == from then to else s[i]
    decreases |s|
  {
    if s != [] {
      var rest := Split(s[1..], from);
      JoinSplit(s[1..], from, to);
      if s[0] == from {
        assert ([[]] + rest)[1..] == rest;
        assert Join(Split(s, from), [to]) == [to] + Join(rest, [to]);
      } else {
        var joined := [[s[0]] + rest[0]] + rest[1..];
        assert joined[1..] == rest[1..];
        assert Join(joined, [to]) == [s[0]] + Join(rest, [to]);
      }
    }
  }

  /** The capital letters become the small ones; every other character stays. */
  function LowerChar(c: char): (r: char)
    ensures 'A' <= c <= 'Z' ==> r == "abcdefghijklmnopqrstuvwxyz"[c as int - 65]
    ensures !('A' <= c <= 'Z') ==> r == c
  {
    if 'A' <= c <= 'Z' then c - 'A' + 'a' else c
  }

  function Lower(s: string): string {
    seq(|s|, i requires 0 <= i < |s| => LowerChar(s[i]))
  }

  /** `strings.TrimPrefix`. */
  function TrimPrefix(s: string, prefix: string): string {
    if prefix <= s then s[|prefix|..] else s
  }
}
