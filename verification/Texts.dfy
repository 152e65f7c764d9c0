/** strings.Split and its inverse, for a separator of one byte. */
module Texts {
  import opened Base

  /** Always at least one part, and the separator is in none of them. */
  function SplitOn(t: Text, sep: byte): (parts: seq<Text>)
    ensures |parts| >= 1
    ensures forall i :: 0 <= i < |parts| ==> sep !in parts[i]
  {
    if t == [] then [[]]
    else
      var rest := SplitOn(t[1..], sep);
      if t[0] == sep then [[]] + rest else [[t[0]] + rest[0]] + rest[1..]
  }

  function JoinWith(parts: seq<Text>, sep: byte): Text
    requires |parts| >= 1
  {
    if |parts| == 1 then parts[0] else parts[0] + [sep] + JoinWith(parts[1..], sep)
  }

  lemma {:induction false} JoinOfSplit(t: Text, sep: byte)
    ensures JoinWith(SplitOn(t, sep), sep) == t
  {
    if t != [] {
      JoinOfSplit(t[1..], sep);
      var rest := SplitOn(t[1..], sep);
      if t[0] == sep {
        assert ([[]] + rest)[1..] == rest;
      } else if |rest| > 1 {
        assert ([[t[0]] + rest[0]] + rest[1..])[1..] == rest[1..];
      }
      assert t == [t[0]] + t[1..];
    }
  }

  lemma {:induction false} SplitOfPart(t: Text, sep: byte)
    requires sep !in t
    ensures SplitOn(t, sep) == [t]
  {
    if t != [] {
      SplitOfPart(t[1..], sep);
      assert t == [t[0]] + t[1..];
    }
  }

  lemma {:induction false} SplitOfFirst(t: Text, sep: byte, rest: Text)
    requires sep !in t
    ensures SplitOn(t + [sep] + rest, sep) == [t] + SplitOn(rest, sep)
  {
    var whole := t + [sep] + rest;
    if t == [] {
      assert whole[1..] == rest;
    } else {
      SplitOfFirst(t[1..], sep, rest);
      assert whole[1..] == t[1..] + [sep] + rest;
      assert t == [t[0]] + t[1..];
    }
  }

  /** Every list of parts without the separator is the split of exactly one text. */
  lemma {:induction false} SplitOfJoin(parts: seq<Text>, sep: byte)
    requires |parts| >= 1
    requires forall i :: 0 <= i < |parts| ==> sep !in parts[i]
    ensures SplitOn(JoinWith(parts, sep), sep) == parts
  {
    if |parts| == 1 {
      SplitOfPart(parts[0], sep);
    } else {
      SplitOfJoin(parts[1..], sep);
      SplitOfFirst(parts[0], sep, JoinWith(parts[1..], sep));
    }
  }

  /** The parts have no bytes of their own. */
  lemma {:induction false} SplitBytes(t: Text, sep: byte, i: nat, b: byte)
    requires i < |SplitOn(t, sep)| && b in SplitOn(t, sep)[i]
    ensures b in t
  {
    if t != [] {
      var rest := SplitOn(t[1..], sep);
      if t[0] == sep {
        assert i > 0;
        SplitBytes(t[1..], sep, i - 1, b);
      } else if i > 0 || b != t[0] {
        SplitBytes(t[1..], sep, i, b);
      }
    }
  }

  lemma SplitInTwo(t: Text, sep: byte)
    requires |SplitOn(t, sep)| == 2
    ensures t == SplitOn(t, sep)[0] + [sep] + SplitOn(t, sep)[1]
  {
    JoinOfSplit(t, sep);
  }

  /** Each separator adds a part. */
  lemma {:induction false} SplitAtMiddle(a: Text, sep: byte, b: Text)
    ensures |SplitOn(a + [sep] + b, sep)| == |SplitOn(a, sep)| + |SplitOn(b, sep)|
  {
    var whole := a + [sep] + b;
    if a == [] {
      assert whole[1..] == b;
    } else {
      SplitAtMiddle(a[1..], sep, b);
      assert whole[1..] == a[1..] + [sep] + b;
    }
  }
}
