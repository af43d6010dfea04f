/** Comparing two nameserver sets: sort copies of both, then compare them position by position. */
module NameServers {

  type Host = string

  /** Go's string order: lexicographic. */
  predicate AtMost(a: Host, b: Host) {
    a == "" || (b != "" && (a[0] < b[0] || (a[0] == b[0] && AtMost(a[1..], b[1..]))))
  }

  lemma AtMostTotal(a: Host, b: Host)
    ensures AtMost(a, b) || AtMost(b, a)
  {
  }

  lemma AtMostAntisymmetric(a: Host, b: Host)
    requires AtMost(a, b) && AtMost(b, a)
    ensures a == b
  {
    if a != "" {
      AtMostAntisymmetric(a[1..], b[1..]);
      assert a == [a[0]] + a[1..] && b == [b[0]] + b[1..];
    }
  }

  lemma AtMostTransitive(a: Host, b: Host, c: Host)
    requires AtMost(a, b) && AtMost(b, c)
    ensures AtMost(a, c)
  {
  }

  ghost predicate Ascending(s: seq<Host>) {
    forall i, j :: 0 <= i < j < |s| ==> AtMost(s[i], s[j])
  }

  /** An ascending sequence starts with the least element of its collection. */
  lemma FirstIsLeast(s: seq<Host>, x: Host)
    requires Ascending(s) && x in multiset(s)
    ensures AtMost(s[0], x)
  {
    var i :| 0 <= i < |s| && s[i] == x;
    AtMostTotal(x, x);
  }

  lemma DropFirst(s: seq<Host>)
    requires s != []
    ensures multiset(s[1..]) == multiset(s) - multiset{s[0]}
    ensures Ascending(s) ==> Ascending(s[1..])
  {
    assert s == [s[0]] + s[1..];
  }

  /** A collection has one ascending arrangement. */
  lemma {:induction false} AscendingIsUnique(a: seq<Host>, b: seq<Host>)
    requires Ascending(a) && Ascending(b) && multiset(a) == multiset(b)
    ensures a == b
    decreases |a|
  {
    assert |multiset(a)| == |a| && |multiset(b)| == |b|;
    if a != [] {
      assert a[0] in multiset(a) && b[0] in multiset(b);
      FirstIsLeast(a, b[0]);
      FirstIsLeast(b, a[0]);
      AtMostAntisymmetric(a[0], b[0]);
      DropFirst(a);
      DropFirst(b);
      AscendingIsUnique(a[1..], b[1..]);
      assert a == [a[0]] + a[1..] && b == [b[0]] + b[1..];
    }
  }

  /** Exchanging two elements keeps the collection. */
  method Swap(a: array<Host>, i: nat, j: nat)
    requires i < j < a.Length
    modifies a
    ensures a[..] == old(a[..])[i := old(a[j])][j := old(a[i])]
    ensures multiset(a[..]) == multiset(old(a[..]))
  {
    a[i], a[j] := a[j], a[i];
  }

  /** In order except that position `j` may still be too small for its place. */
  ghost predicate AscendingBut(s: seq<Host>, j: int) {
    forall p, q :: 0 <= p < q < |s| && q != j ==> AtMost(s[p], s[q])
  }

  /** Moves the element at `i` down to its place among the ones before it. */
  method SiftDown(a: array<Host>, i: nat)
    requires i < a.Length && Ascending(a[..i])
    modifies a
    ensures Ascending(a[..i + 1])
    ensures multiset(a[..]) == multiset(old(a[..]))
  {
    var j := i;
    while j > 0 && !AtMost(a[j - 1], a[j])
      invariant 0 <= j <= i
      invariant AscendingBut(a[..i + 1], j)
      invariant forall q :: j < q <= i ==> AtMost(a[j], a[q])
      invariant multiset(a[..]) == multiset(old(a[..]))
    {
      AtMostTotal(a[j - 1], a[j]);
      Swap(a, j - 1, j);
      j := j - 1;
    }
    forall p | 0 <= p < j ensures AtMost(a[p], a[j]) {
      if p < j - 1 {
        assert a[..i + 1][p] == a[p] && a[..i + 1][j - 1] == a[j - 1];
        AtMostTransitive(a[p], a[j - 1], a[j]);
      }
    }
  }

  /** sort.Strings: sorts the array in place. */
  method SortStrings(a: array<Host>)
    modifies a
    ensures Ascending(a[..])
    ensures multiset(a[..]) == multiset(old(a[..]))
  {
    for i := 0 to a.Length
      invariant Ascending(a[..i])
      invariant multiset(a[..]) == multiset(old(a[..]))
    {
      SiftDown(a, i);
    }
    assert a[..a.Length] == a[..];
  }

  /** Whether two lookups returned the same nameservers, counting repeats and ignoring order. */
  method NsSetsEqual(a: seq<Host>, b: seq<Host>) returns (equal: bool)
    ensures equal <==> multiset(a) == multiset(b)
  {
    if |a| != |b| {
      assert |multiset(a)| == |a| && |multiset(b)| == |b|;
      return false;
    }
    var sortedA := new Host[|a|](i requires 0 <= i < |a| => a[i]);
    var sortedB := new Host[|b|](i requires 0 <= i < |b| => b[i]);
    assert sortedA[..] == a && sortedB[..] == b;
    SortStrings(sortedA);
    SortStrings(sortedB);
    for i := 0 to sortedA.Length
      invariant sortedA[..i] == sortedB[..i]
      invariant multiset(sortedA[..]) == multiset(a) && multiset(sortedB[..]) == multiset(b)
      invariant Ascending(sortedA[..]) && Ascending(sortedB[..])
    {
      if sortedA[i] != sortedB[i] {
        assert sortedA[..][i] != sortedB[..][i];
        if multiset(a) == multiset(b) {
          AscendingIsUnique(sortedA[..], sortedB[..]);
        }
        return false;
      }
    }
    assert sortedA[..] == sortedA[..sortedA.Length] == sortedB[..sortedB.Length] == sortedB[..];
    return true;
  }

  // ---------------------------------------------------------------- letter case

  /** strings.ToLower on the characters a hostname is made of. */
  function Lower(c: char): char {
    if 'A' <= c <= 'Z' then c - 'A' + 'a' else c
  }

  function Folded(host: Host): Host {
    seq(|host|, i requires 0 <= i < |host| => Lower(host[i]))
  }

  function AllFolded(hosts: seq<Host>): seq<Host> {
    seq(|hosts|, i requires 0 <= i < |hosts| => Folded(hosts[i]))
  }

  predicate LowerCase(hosts: seq<Host>) {
    AllFolded(hosts) == hosts
  }

  lemma FoldingTwice(hosts: seq<Host>)
    ensures LowerCase(AllFolded(hosts))
  {
    forall i | 0 <= i < |hosts| ensures Folded(Folded(hosts[i])) == Folded(hosts[i]) {
    }
  }

  lemma FoldingAppends(a: seq<Host>, b: seq<Host>)
    ensures AllFolded(a + b) == AllFolded(a) + AllFolded(b)
  {
  }

  /** Folding depends on the collection alone. */
  lemma {:induction false} EqualCollectionsFoldAlike(a: seq<Host>, b: seq<Host>)
    requires multiset(a) == multiset(b)
    ensures multiset(AllFolded(a)) == multiset(AllFolded(b))
    decreases |a|
  {
    assert |multiset(a)| == |a| && |multiset(b)| == |b|;
    if a != [] {
      assert a[0] in multiset(b);
      var k :| 0 <= k < |b| && b[k] == a[0];
      DropFirst(a);
      assert b == b[..k] + ([b[k]] + b[k + 1..]);
      EqualCollectionsFoldAlike(a[1..], b[..k] + b[k + 1..]);
      FoldingAppends(b[..k], [b[k]] + b[k + 1..]);
      FoldingAppends([b[k]], b[k + 1..]);
      FoldingAppends(b[..k], b[k + 1..]);
      assert a == [a[0]] + a[1..];
      FoldingAppends([a[0]], a[1..]);
      assert AllFolded([a[0]]) == AllFolded([b[k]]);
    }
  }

  /** The exact comparison of two lists comes to the same as comparing them without letter case. */
  ghost predicate ComparesFolded(a: seq<Host>, b: seq<Host>) {
    multiset(a) == multiset(b) <==> multiset(AllFolded(a)) == multiset(AllFolded(b))
  }

  /**
   The comparison ignores letter case exactly as far as the lookup does. Its
   answers are lower-cased, and a baseline agrees with folding against every
   such answer if and only if it is lower-case itself.
   */
  lemma ComparesFoldedExactly(baseline: seq<Host>)
    ensures (forall answer :: LowerCase(answer) ==> ComparesFolded(baseline, answer)) <==> LowerCase(baseline)
  {
    if !LowerCase(baseline) {
      var answer := AllFolded(baseline);
      FoldingTwice(baseline);
      var i :| 0 <= i < |baseline| && Folded(baseline[i]) != baseline[i];
      assert baseline[i] in multiset(baseline);
      assert forall j :: 0 <= j < |answer| ==> Folded(answer[j]) == answer[j];
      assert baseline[i] !in multiset(answer);
      assert !ComparesFolded(baseline, answer);
    }
  }

  /** Two lists are told apart by letter case alone exactly when they differ and their foldings do not. */
  lemma CaseIsNotFolded(a: seq<Host>, b: seq<Host>)
    ensures !ComparesFolded(a, b) <==> multiset(a) != multiset(b) && multiset(AllFolded(a)) == multiset(AllFolded(b))
    ensures LowerCase(a) && LowerCase(b) ==> ComparesFolded(a, b)
  {
    if multiset(a) == multiset(b) {
      EqualCollectionsFoldAlike(a, b);
    }
  }
}
