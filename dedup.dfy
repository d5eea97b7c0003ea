/** The de-duplication step of fetchJobsFromGitHub: a job is kept when it is the first in
    the merged list with its company and title. */
module Dedup {
  import opened Types
  import opened Seqs

  /** What two listings must share to count as the same job. */
  datatype Key = Key(company: string, title: string)

  function KeyOf(j: Job): Key {
    Key(j.company, j.title)
  }

  /** The keys of a list of jobs, position by position. */
  function Keys(s: seq<Job>): (keys: seq<Key>)
    ensures |keys| == |s|
    ensures forall i :: 0 <= i < |s| ==> keys[i] == KeyOf(s[i])
  {
    seq(|s|, i requires 0 <= i < |s| => KeyOf(s[i]))
  }

  /** No two jobs of `s` share a key. */
  predicate UniqueKeys(s: seq<Job>) {
    forall i, j :: 0 <= i < j < |s| ==> KeyOf(s[i]) != KeyOf(s[j])
  }

  /** Array.prototype.findIndex with the key test, searching from `from`: the first index
      holding `key`, or -1. */
  function FindIndex(s: seq<Job>, key: Key, from: nat): (k: int)
    requires from <= |s|
    ensures k == -1 || from <= k < |s|
    ensures k == -1 <==> forall i :: from <= i < |s| ==> KeyOf(s[i]) != key
    ensures k != -1 ==> KeyOf(s[k]) == key && forall i :: from <= i < k ==> KeyOf(s[i]) != key
    decreases |s| - from
  {
    if from == |s| then -1
    else if KeyOf(s[from]) == key then from
    else FindIndex(s, key, from + 1)
  }

  /** `s[i]` is the first job of `s` with its key: the filter's test. */
  predicate IsFirst(s: seq<Job>, i: nat)
    requires i < |s|
  {
    FindIndex(s, KeyOf(s[i]), 0) == i
  }

  /** The filter applied to the jobs from index `i` on. */
  function KeepFrom(s: seq<Job>, i: nat): seq<Job>
    requires i <= |s|
    decreases |s| - i
  {
    if i == |s| then []
    else (if IsFirst(s, i) then [s[i]] else []) + KeepFrom(s, i + 1)
  }

  /** `allJobs.filter((job, index, self) => index === self.findIndex(...))` */
  function Unique(s: seq<Job>): seq<Job> {
    KeepFrom(s, 0)
  }

  /** Every job kept from index `i` on is a first occurrence at or after `i`. */
  lemma {:induction false} KeptAreFirsts(s: seq<Job>, i: nat, x: Job) returns (j: nat)
    requires i <= |s|
    requires x in KeepFrom(s, i)
    ensures i <= j < |s| && s[j] == x && IsFirst(s, j)
    decreases |s| - i
  {
    if IsFirst(s, i) && x == s[i] {
      j := i;
    } else {
      assert x in KeepFrom(s, i + 1);
      j := KeptAreFirsts(s, i + 1, x);
    }
  }

  /** Every first occurrence at or after `i` is kept. */
  lemma {:induction false} FirstsAreKept(s: seq<Job>, i: nat, j: nat)
    requires i <= j < |s| && IsFirst(s, j)
    ensures s[j] in KeepFrom(s, i)
    decreases j - i
  {
    if i < j {
      FirstsAreKept(s, i + 1, j);
    }
  }

  lemma {:induction false} KeepFromSubseq(s: seq<Job>, i: nat)
    requires i <= |s|
    ensures IsSubseq(KeepFrom(s, i), s[i..])
    decreases |s| - i
  {
    if i < |s| {
      KeepFromSubseq(s, i + 1);
      assert s[i..] == [s[i]] + s[i + 1..];
      SubseqPrepend(KeepFrom(s, i + 1), s[i + 1..], s[i]);
      if !IsFirst(s, i) {
        assert KeepFrom(s, i) == KeepFrom(s, i + 1);
      }
    }
  }

  lemma {:induction false} KeepFromUnique(s: seq<Job>, i: nat)
    requires i <= |s|
    ensures UniqueKeys(KeepFrom(s, i))
    decreases |s| - i
  {
    if i < |s| {
      KeepFromUnique(s, i + 1);
      var rest := KeepFrom(s, i + 1);
      if IsFirst(s, i) {
        forall m | 0 <= m < |rest| ensures KeyOf(rest[m]) != KeyOf(s[i]) {
          var j := KeptAreFirsts(s, i + 1, rest[m]);
          assert FindIndex(s, KeyOf(s[j]), 0) == j;
        }
        var r := KeepFrom(s, i);
        assert r == [s[i]] + rest;
        forall a, b | 0 <= a < b < |r| ensures KeyOf(r[a]) != KeyOf(r[b]) {
          assert r[b] == rest[b - 1];
          if a > 0 {
            assert r[a] == rest[a - 1];
          }
        }
      }
    }
  }

  /** No two kept jobs share a key, and the result is the input with some jobs left out
      and the order kept. */
  lemma UniqueIsOrderedAndUnique(s: seq<Job>)
    ensures UniqueKeys(Unique(s))
    ensures IsSubseq(Unique(s), s)
  {
    KeepFromUnique(s, 0);
    KeepFromSubseq(s, 0);
    assert s[0..] == s;
  }

  /** Each kept job is the first job of the input with its key. */
  lemma UniqueKeepsFirst(s: seq<Job>)
    ensures forall x :: x in Unique(s) ==>
              FindIndex(s, KeyOf(x), 0) != -1 && x == s[FindIndex(s, KeyOf(x), 0)]
  {
    forall x | x in Unique(s)
      ensures FindIndex(s, KeyOf(x), 0) != -1 && x == s[FindIndex(s, KeyOf(x), 0)]
    {
      var j := KeptAreFirsts(s, 0, x);
    }
  }

  /** Every key of the input is still there. */
  lemma UniqueKeepsKeys(s: seq<Job>)
    ensures forall i :: 0 <= i < |s| ==> KeyOf(s[i]) in Keys(Unique(s))
  {
    forall i | 0 <= i < |s| ensures KeyOf(s[i]) in Keys(Unique(s)) {
      var f := FindIndex(s, KeyOf(s[i]), 0);
      assert IsFirst(s, f);
      FirstsAreKept(s, 0, f);
      var m :| 0 <= m < |Unique(s)| && Unique(s)[m] == s[f];
      assert Keys(Unique(s))[m] == KeyOf(s[i]);
    }
  }

  /** On a list whose keys are already unique every job is a first occurrence. */
  lemma {:induction false} KeepAllUnique(s: seq<Job>, i: nat)
    requires UniqueKeys(s) && i <= |s|
    ensures KeepFrom(s, i) == s[i..]
    decreases |s| - i
  {
    if i < |s| {
      KeepAllUnique(s, i + 1);
      assert IsFirst(s, i) by {
        var f := FindIndex(s, KeyOf(s[i]), 0);
        assert 0 <= f <= i;
      }
      assert s[i..] == [s[i]] + s[i + 1..];
    }
  }

  /** De-duplicating twice is de-duplicating once. */
  lemma UniqueIdempotent(s: seq<Job>)
    ensures Unique(Unique(s)) == Unique(s)
  {
    UniqueIsOrderedAndUnique(s);
    KeepAllUnique(Unique(s), 0);
    assert Unique(s)[0..] == Unique(s);
  }
}
