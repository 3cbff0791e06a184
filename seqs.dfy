/** Generic facts about sequences used throughout the model. */
module Seqs {

  /** No element occurs twice. */
  predicate Distinct<T(==)>(s: seq<T>) {
    forall i, j :: 0 <= i < j < |s| ==> s[i] != s[j]
  }

  /** The elements of `s` satisfying `keep`, in their original order. */
  function Filter<T>(s: seq<T>, keep: T -> bool): (r: seq<T>)
    ensures |r| <= |s|
    ensures forall x :: x in r ==> x in s && keep(x)
    ensures forall x :: x in s && keep(x) ==> x in r
  {
    if s == [] then []
    else (if keep(s[0]) then [s[0]] else []) + Filter(s[1..], keep)
  }

  /** `a` is obtained from `b` by deleting elements: an order-preserving embedding. */
  ghost predicate IsSubsequence<T>(a: seq<T>, b: seq<T>) {
    exists idx: seq<nat> :: Embeds(idx, a, b)
  }

  ghost predicate Embeds<T>(idx: seq<nat>, a: seq<T>, b: seq<T>) {
    && |idx| == |a|
    && (forall k :: 0 <= k < |idx| ==> idx[k] < |b| && a[k] == b[idx[k]])
    && (forall k, l :: 0 <= k < l < |idx| ==> idx[k] < idx[l])
  }

  lemma {:induction false} FilterIsSubsequence<T>(s: seq<T>, keep: T -> bool)
    ensures IsSubsequence(Filter(s, keep), s)
  {
    if s == [] {
      assert Embeds([], Filter(s, keep), s);
    } else {
      FilterIsSubsequence(s[1..], keep);
      var rest := Filter(s[1..], keep);
      var idx :| Embeds(idx, rest, s[1..]);
      var shifted := ShiftUp(idx);
      if keep(s[0]) {
        assert Filter(s, keep) == [s[0]] + rest;
        EmbedsCons(s, rest, idx, [0] + shifted);
      } else {
        assert Filter(s, keep) == rest;
        EmbedsSkip(s, rest, idx, shifted);
      }
    }
  }

  function ShiftUp(idx: seq<nat>): (r: seq<nat>)
    ensures |r| == |idx| && forall k :: 0 <= k < |idx| ==> r[k] == idx[k] + 1
  {
    if idx == [] then [] else [idx[0] + 1] + ShiftUp(idx[1..])
  }

  lemma EmbedsCons<T>(s: seq<T>, rest: seq<T>, idx: seq<nat>, idx': seq<nat>)
    requires s != [] && Embeds(idx, rest, s[1..])
    requires |idx'| == |idx| + 1 && idx'[0] == 0
    requires forall k :: 0 <= k < |idx| ==> idx'[k + 1] == idx[k] + 1
    ensures Embeds(idx', [s[0]] + rest, s)
  {
    var r := [s[0]] + rest;
    forall k | 0 <= k < |idx'| ensures idx'[k] < |s| && r[k] == s[idx'[k]] {
      if k > 0 {
        assert idx'[k] == idx[k - 1] + 1 && r[k] == rest[k - 1];
      }
    }
    forall k, l | 0 <= k < l < |idx'| ensures idx'[k] < idx'[l] {
      assert idx'[l] == idx[l - 1] + 1;
      if k > 0 {
        assert idx'[k] == idx[k - 1] + 1;
      }
    }
  }

  lemma EmbedsSkip<T>(s: seq<T>, rest: seq<T>, idx: seq<nat>, idx': seq<nat>)
    requires s != [] && Embeds(idx, rest, s[1..])
    requires |idx'| == |idx| && forall k :: 0 <= k < |idx| ==> idx'[k] == idx[k] + 1
    ensures Embeds(idx', rest, s)
  {
    forall k | 0 <= k < |idx'| ensures idx'[k] < |s| && rest[k] == s[idx'[k]] {
      assert rest[k] == s[1..][idx[k]];
    }
  }

  /** The number of distinct values of a sequence never exceeds its length,
      and equals it when the sequence is `Distinct`. */
  lemma {:induction false} SeqSetCard<T>(s: seq<T>)
    ensures |set x | x in s| <= |s|
    ensures Distinct(s) ==> |set x | x in s| == |s|
  {
    if s != [] {
      var init := s[..|s| - 1];
      SeqSetCard(init);
      assert (set x | x in s) == (set x | x in init) + {s[|s| - 1]};
      if Distinct(s) {
        assert Distinct(init);
        assert s[|s| - 1] !in init;
      }
    }
  }

  /** Pigeonhole: a repetition-free sequence drawn from the values of `q` is no longer than `q`. */
  lemma DistinctLengthBound<T>(p: seq<T>, q: seq<T>)
    requires Distinct(p)
    requires forall x :: x in p ==> x in q
    ensures |p| <= |q|
  {
    SeqSetCard(p);
    SeqSetCard(q);
    var sp := set x | x in p;
    var sq := set x | x in q;
    assert sq == sp + (sq - sp);
  }

  lemma {:induction false} FilterSnoc<T>(s: seq<T>, x: T, keep: T -> bool)
    ensures Filter(s + [x], keep) == Filter(s, keep) + (if keep(x) then [x] else [])
  {
    if s == [] {
      assert [] + [x] == [x];
    } else {
      FilterSnoc(s[1..], x, keep);
      var head: seq<T> := if keep(s[0]) then [s[0]] else [];
      var tail: seq<T> := if keep(x) then [x] else [];
      assert (s + [x])[0] == s[0] && (s + [x])[1..] == s[1..] + [x];
      calc {
        Filter(s + [x], keep);
        head + Filter(s[1..] + [x], keep);
        head + (Filter(s[1..], keep) + tail);
        (head + Filter(s[1..], keep)) + tail;
        Filter(s, keep) + tail;
      }
    }
  }

  /** The blocks `f(0), ..., f(k - 1)` laid end to end. */
  function Blocks<T>(f: nat -> seq<T>, k: nat): seq<T> {
    if k == 0 then [] else Blocks(f, k - 1) + f(k - 1)
  }

  /** An element of the concatenation comes from one of the blocks. */
  lemma {:induction false} BlocksMember<T>(f: nat -> seq<T>, k: nat, x: T) returns (i: nat)
    requires x in Blocks(f, k)
    ensures i < k && x in f(i)
  {
    if x in Blocks(f, k - 1) {
      i := BlocksMember(f, k - 1, x);
    } else {
      i := k - 1;
    }
  }
}
