// Lists of names without repeats, and the letter case of ASCII text.

module Texts {
  /** Names in order of first occurrence. */
  function Dedup(names: seq<string>): seq<string> {
    if names == [] then []
    else
      var before := Dedup(names[..|names| - 1]);
      var last := names[|names| - 1];
      if last in before then before else before + [last]
  }

  ghost predicate Distinct(names: seq<string>) {
    forall i, j | 0 <= i < j < |names| :: names[i] != names[j]
  }

  lemma {:induction false} DedupFacts(names: seq<string>)
    ensures forall k :: k in Dedup(names) <==> k in names
    ensures Distinct(Dedup(names))
  {
    if names != [] {
      DedupFacts(names[..|names| - 1]);
      assert names == names[..|names| - 1] + [names[|names| - 1]];
    }
  }

  /** Where a name first stands; the length of the list if it does not. */
  function FirstIndex(names: seq<string>, name: string): (i: nat)
    ensures i <= |names| && (i < |names| <==> name in names)
    ensures i < |names| ==> names[i] == name
    ensures forall k | 0 <= k < i :: names[k] != name
  {
    if names == [] then 0
    else if names[0] == name then 0
    else
      var i := FirstIndex(names[1..], name);
      assert forall k | 1 <= k < i + 1 :: names[k] == names[1..][k - 1];
      i + 1
  }

  /** The names stand in the order in which they are first offered. */
  ghost predicate InOrderOf(names: seq<string>, offers: seq<string>) {
    forall i, j | 0 <= i < j < |names| :: FirstIndex(offers, names[i]) < FirstIndex(offers, names[j])
  }

  lemma FirstIndexSnoc(front: seq<string>, last: string, name: string)
    ensures FirstIndex(front + [last], name) ==
      if name in front then FirstIndex(front, name) else if name == last then |front| else |front| + 1
  {
    var i, names := FirstIndex(front + [last], name), front + [last];
    assert forall k | 0 <= k < |front| :: names[k] == front[k];
    assert names[|front|] == last;
  }

  /** An offer that comes after all others changes nothing in the order of what was offered. */
  lemma OrderSnoc(names: seq<string>, front: seq<string>, last: string)
    requires InOrderOf(names, front) && forall n | n in names :: n in front
    ensures InOrderOf(names, front + [last])
    ensures last !in front ==> InOrderOf(names + [last], front + [last])
  {
    forall n: string ensures FirstIndex(front + [last], n) ==
      if n in front then FirstIndex(front, n) else if n == last then |front| else |front| + 1
    {
      FirstIndexSnoc(front, last, n);
    }
    forall i, j | 0 <= i < j < |names| ensures FirstIndex(front + [last], names[i]) < FirstIndex(front + [last], names[j]) {
      assert names[i] in names && names[j] in names;
    }
    if last !in front {
      var more := names + [last];
      forall i, j | 0 <= i < j < |more| ensures FirstIndex(front + [last], more[i]) < FirstIndex(front + [last], more[j]) {
        assert more[i] in names;
      }
    }
  }

  /** Names without repeats stand in the order of their first occurrence. */
  lemma {:induction false} DedupInOrder(names: seq<string>)
    ensures InOrderOf(Dedup(names), names)
  {
    if names != [] {
      var front, last := names[..|names| - 1], names[|names| - 1];
      DedupInOrder(front);
      DedupFacts(front);
      OrderSnoc(Dedup(front), front, last);
      assert names == front + [last];
    }
  }

  lemma {:induction false} DistinctStays(names: seq<string>)
    requires Distinct(names)
    ensures Dedup(names) == names
  {
    if names != [] {
      DistinctStays(names[..|names| - 1]);
      assert names == names[..|names| - 1] + [names[|names| - 1]];
    }
  }

  lemma FirstOfDistinct(names: seq<string>, i: nat)
    requires Distinct(names) && i < |names|
    ensures FirstIndex(names, names[i]) == i
  {
  }

  function LowerChar(c: char): char {
    if 'A' <= c <= 'Z' then ((c as int) - ('A' as int) + ('a' as int)) as char else c
  }

  function UpperChar(c: char): char {
    if 'a' <= c <= 'z' then ((c as int) - ('a' as int) + ('A' as int)) as char else c
  }

  function Lower(s: string): (r: string)
    ensures |r| == |s|
  {
    seq(|s|, i requires 0 <= i < |s| => LowerChar(s[i]))
  }

  function Upper(s: string): (r: string)
    ensures |r| == |s|
  {
    seq(|s|, i requires 0 <= i < |s| => UpperChar(s[i]))
  }

  lemma CaseFacts(s: string)
    ensures Lower(Lower(s)) == Lower(s)
    ensures Upper(Lower(s)) == Upper(s)
    ensures Lower(Upper(s)) == Lower(s)
  {
  }
}
