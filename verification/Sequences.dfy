/** Facts about sequences and their multisets. */
module Sequences {

  lemma TwoOccurrences<T>(s: seq<T>, i: nat, j: nat)
    requires i < j < |s| && s[i] == s[j]
    ensures multiset(s)[s[i]] >= 2
  {
    assert s == s[..j] + s[j..];
    assert s[..j][i] in multiset(s[..j]) && s[j..][0] in multiset(s[j..]);
  }

  /** A sequence whose multiset counts an element at most once does not repeat it. */
  lemma NoRepeats<T>(s: seq<T>, i: nat, j: nat)
    requires i < j < |s| && multiset(s)[s[i]] <= 1
    ensures s[i] != s[j]
  {
    if s[i] == s[j] {
      TwoOccurrences(s, i, j);
    }
  }

  lemma DistinctListing<T>(s: seq<T>, elements: set<T>)
    requires multiset(s) == multiset(elements)
    ensures forall i, j | 0 <= i < j < |s| :: s[i] != s[j]
  {
    forall i, j | 0 <= i < j < |s|
      ensures s[i] != s[j]
    {
      NoRepeats(s, i, j);
    }
  }

  /** The sequence without its k-th element. */
  function Drop<T>(s: seq<T>, k: nat): seq<T>
    requires k < |s|
  {
    s[..k] + s[k + 1..]
  }

  lemma DropFrom<T>(s: seq<T>, k: nat)
    requires k < |s|
    ensures |Drop(s, k)| == |s| - 1
    ensures forall i | 0 <= i < |s| - 1 :: Drop(s, k)[i] == s[if i < k then i else i + 1]
  {
  }

  lemma DropMultiset<T>(s: seq<T>, k: nat)
    requires k < |s|
    ensures multiset(Drop(s, k)) == multiset(s) - multiset{s[k]}
    ensures s[k] in multiset(s)
  {
    assert s == s[..k] + [s[k]] + s[k + 1..];
  }

  lemma SameAfterDrop<T>(a: seq<T>, b: seq<T>, k: nat)
    requires multiset(a) == multiset(b) && a != [] && k < |b| && b[k] == a[0]
    ensures multiset(a[1..]) == multiset(Drop(b, k))
  {
    DropMultiset(b, k);
    assert a == [a[0]] + a[1..];
  }

  lemma PairFirst<T>(x: T, y: T, others: seq<T>)
    ensures multiset([x, y] + others) == multiset{x} + multiset{y} + multiset(others)
  {
  }

  lemma TwoTaken<T>(whole: multiset<T>, x: T, y: T)
    requires x in whole && y in whole - multiset{x}
    ensures multiset{x} + multiset{y} + (whole - multiset{x} - multiset{y}) == whole
  {
  }

  lemma DropPair<T>(s: seq<T>, i: nat, k: nat)
    requires i < |s| && k < |s| - 1
    ensures var rest := Drop(s, i);
            && |rest| == |s| - 1
            && multiset([s[i], rest[k]] + Drop(rest, k)) == multiset(s)
            && multiset([rest[k], s[i]] + Drop(rest, k)) == multiset(s)
  {
    var rest := Drop(s, i);
    assert |rest| == |s| - 1;
    DropMultiset(s, i);
    DropMultiset(rest, k);
    TwoTaken(multiset(s), s[i], rest[k]);
    PairFirst(s[i], rest[k], Drop(rest, k));
    PairFirst(rest[k], s[i], Drop(rest, k));
  }

  lemma Listing<T>(elements: multiset<T>) returns (s: seq<T>)
    ensures multiset(s) == elements
    decreases |elements|
  {
    if elements == multiset{} {
      s := [];
    } else {
      var x :| x in elements;
      s := Listing(elements - multiset{x});
      s := s + [x];
    }
  }

  lemma Reassembled<T>(s: seq<T>, k: nat)
    requires k < |s|
    ensures s[..k] + [s[k]] + s[k + 1..] == s
  {
  }

  lemma PairBag<T>(a: T, b: T)
    requires a != b
    ensures multiset([a, b]) == multiset([b, a]) == multiset({a, b})
  {
    assert multiset([a, b]) == multiset{a, b};
  }
}
