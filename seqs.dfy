/** Sequence operations behind the store's index-addressed deletion: a single splice, a run of
    splices one after another, and filtering out a set of positions. The central fact is
    DeleteDescending: splicing out a strictly descending list of valid positions, one call at a
    time, leaves exactly the sequence with those positions filtered out. */
module Seqs {

  /** The sequence as `s.splice(i, 1)` leaves it: element i gone, the rest shifted left. */
  function RemoveAt<T>(s: seq<T>, i: nat): (r: seq<T>)
    requires i < |s|
    ensures |r| == |s| - 1
  {
    s[..i] + s[i + 1..]
  }

  /** A splice removes exactly element i: what is before it stays in place, what is after it
      moves one place left, and the multiset loses one copy of s[i] and nothing else. */
  lemma RemoveAtSpec<T>(s: seq<T>, i: nat)
    requires i < |s|
    ensures forall j :: 0 <= j < i ==> RemoveAt(s, i)[j] == s[j]
    ensures forall j :: i <= j < |s| - 1 ==> RemoveAt(s, i)[j] == s[j + 1]
    ensures multiset(RemoveAt(s, i)) + multiset{s[i]} == multiset(s)
  {
    assert s == s[..i] + [s[i]] + s[i + 1..];
  }

  /** The elements of s whose positions are not in drop, in their original order. */
  function Without<T>(s: seq<T>, drop: set<nat>): (r: seq<T>)
    ensures |r| <= |s|
    ensures forall x :: x in r ==> x in s
    decreases |s|
  {
    if s == [] then []
    else Without(s[..|s| - 1], drop) + (if |s| - 1 in drop then [] else [s[|s| - 1]])
  }

  /** One position after another, each against the sequence the previous deletion left behind;
      a position that is out of range at its turn leaves the sequence as it is. */
  function DeleteEach<T>(s: seq<T>, ix: seq<nat>): seq<T>
    decreases |ix|
  {
    if ix == [] then s
    else DeleteEach(if ix[0] < |s| then RemoveAt(s, ix[0]) else s, ix[1..])
  }

  function Elements(ix: seq<nat>): set<nat> {
    set x | x in ix
  }

  lemma ElementsAppend(a: seq<nat>, b: seq<nat>)
    ensures Elements(a + b) == Elements(a) + Elements(b)
  {
    assert forall x :: x in a + b <==> x in a || x in b;
  }

  lemma ElementsSmall(a: seq<nat>)
    ensures a == [] ==> Elements(a) == {}
    ensures |a| == 1 ==> Elements(a) == {a[0]}
  {
    if |a| == 1 {
      assert forall x :: x in a <==> x == a[0];
    }
  }

  predicate StrictlyDescending(ix: seq<nat>) {
    forall j, k :: 0 <= j < k < |ix| ==> ix[j] > ix[k]
  }

  predicate StrictlyAscending(ix: seq<nat>) {
    forall j, k :: 0 <= j < k < |ix| ==> ix[j] < ix[k]
  }

  function Reverse<T>(s: seq<T>): (r: seq<T>)
    ensures |r| == |s|
    ensures forall j :: 0 <= j < |s| ==> r[j] == s[|s| - 1 - j]
    decreases |s|
  {
    if s == [] then [] else Reverse(s[1..]) + [s[0]]
  }

  lemma {:induction false} ReversePreservesMultiset<T>(s: seq<T>)
    ensures multiset(Reverse(s)) == multiset(s)
    decreases |s|
  {
    if s != [] {
      ReversePreservesMultiset(s[1..]);
      assert s == [s[0]] + s[1..];
    }
  }

  /** Filtering positions only looks at positions below |s|. */
  lemma {:induction false} WithoutAgrees<T>(s: seq<T>, d: set<nat>, e: set<nat>)
    requires forall i: nat :: i < |s| ==> (i in d <==> i in e)
    ensures Without(s, d) == Without(s, e)
    decreases |s|
  {
    if s != [] {
      WithoutAgrees(s[..|s| - 1], d, e);
    }
  }

  /** Appending elements past every dropped position appends them unfiltered. */
  lemma {:induction false} WithoutAppend<T>(p: seq<T>, t: seq<T>, d: set<nat>)
    requires forall i :: i in d ==> i < |p|
    ensures Without(p + t, d) == Without(p, d) + t
    decreases |t|
  {
    if t == [] {
      assert p + t == p;
    } else {
      var t' := t[..|t| - 1];
      assert (p + t)[..|p + t| - 1] == p + t';
      assert (p + t)[|p + t| - 1] == t[|t| - 1];
      WithoutAppend(p, t', d);
      assert t' + [t[|t| - 1]] == t;
    }
  }

  /** Splicing out position i, below which nothing else is dropped, is the same as dropping i too. */
  lemma WithoutRemoveAt<T>(s: seq<T>, i: nat, d: set<nat>)
    requires i < |s|
    requires forall k :: k in d ==> k < i
    ensures Without(RemoveAt(s, i), d) == Without(s, d + {i})
  {
    var front, back := s[..i], s[i + 1..];
    var upTo := s[..i + 1];
    assert RemoveAt(s, i) == front + back;
    WithoutAppend(front, back, d);
    assert s == upTo + back;
    WithoutAppend(upTo, back, d + {i});
    assert upTo[..|upTo| - 1] == front;
    assert Without(upTo, d + {i}) == Without(front, d + {i});
    WithoutAgrees(front, d + {i}, d);
  }

  /** The descending-deletion discipline: when the positions are strictly descending and valid in
      the original sequence, deleting them one splice at a time leaves the original with exactly
      those positions filtered out, the rest in their order. */
  lemma {:induction false} DeleteDescending<T>(s: seq<T>, ix: seq<nat>)
    requires StrictlyDescending(ix)
    requires forall j :: 0 <= j < |ix| ==> ix[j] < |s|
    ensures DeleteEach(s, ix) == Without(s, Elements(ix))
    decreases |ix|
  {
    if ix == [] {
      assert Elements(ix) == {};
      WithoutIdentity(s);
    } else {
      var rest, i := ix[1..], ix[0];
      var spliced := RemoveAt(s, i);
      DescendingTail(ix);
      TailInRange(|s|, ix);
      assert DeleteEach(s, ix) == DeleteEach(spliced, rest);
      DeleteDescending(spliced, rest);
      WithoutRemoveAt(s, i, Elements(rest));
      ElementsCons(ix);
    }
  }

  /** After the first splice every later position still points into the shorter sequence. */
  lemma TailInRange(len: nat, ix: seq<nat>)
    requires StrictlyDescending(ix) && ix != []
    requires forall j :: 0 <= j < |ix| ==> ix[j] < len
    ensures forall j :: 0 <= j < |ix[1..]| ==> ix[1..][j] < len - 1
  {
    forall j | 0 <= j < |ix[1..]| ensures ix[1..][j] < len - 1 {
      assert ix[1..][j] == ix[j + 1] && ix[j + 1] < ix[0];
    }
  }

  lemma ElementsCons(ix: seq<nat>)
    requires ix != []
    ensures Elements(ix[1..]) + {ix[0]} == Elements(ix)
  {
    assert ix == [ix[0]] + ix[1..];
  }

  /** One turn of the descending-deletion loop: splicing out the current position leaves every later
      position valid, and what remains to be done is the rest of the list. */
  lemma DeleteStep<T>(s: seq<T>, ix: seq<nat>, i: nat)
    requires StrictlyDescending(ix) && i < |ix|
    requires forall j :: i <= j < |ix| ==> ix[j] < |s|
    ensures DeleteEach(s, ix[i..]) == DeleteEach(RemoveAt(s, ix[i]), ix[i + 1..])
    ensures forall j :: i + 1 <= j < |ix| ==> ix[j] < |RemoveAt(s, ix[i])|
  {
    assert ix[i..][0] == ix[i];
    assert ix[i..][1..] == ix[i + 1..];
  }

  /** Dropping the head of a strictly descending list leaves a strictly descending list below it. */
  lemma DescendingTail(ix: seq<nat>)
    requires StrictlyDescending(ix) && ix != []
    ensures StrictlyDescending(ix[1..])
    ensures forall k :: k in Elements(ix[1..]) ==> k < ix[0]
  {
    var rest := ix[1..];
    forall j, k | 0 <= j < k < |rest| ensures rest[j] > rest[k] {
      assert rest[j] == ix[j + 1] && rest[k] == ix[k + 1];
    }
    forall k | k in Elements(rest) ensures k < ix[0] {
      var j :| 0 <= j < |rest| && rest[j] == k;
      assert rest[j] == ix[j + 1];
    }
  }

  lemma {:induction false} WithoutIdentity<T>(s: seq<T>)
    ensures Without(s, {}) == s
    decreases |s|
  {
    if s != [] {
      WithoutIdentity(s[..|s| - 1]);
    }
  }
}
