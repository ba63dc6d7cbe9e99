/**
 * Small shared helpers: an optional value (JavaScript's `undefined` versus a
 * present value) and the concatenation of a sequence of sequences, which the
 * element builders use to append the elements made for a list of entries.
 */
module Common {

  /** A value that may be absent: `None` models JavaScript's `undefined`. */
  datatype Option<+T> = None | Some(value: T)

  /** The concatenation, in order, of every sequence in `ss`. */
  function Concat<T>(ss: seq<seq<T>>): seq<T>
  {
    if ss == [] then [] else Concat(ss[..|ss| - 1]) + ss[|ss| - 1]
  }

  /** When every part is a singleton, concatenation has one element per part. */
  lemma {:induction false} ConcatSingletons<T>(ss: seq<seq<T>>)
    requires forall i :: 0 <= i < |ss| ==> |ss[i]| == 1
    ensures |Concat(ss)| == |ss|
    ensures forall i :: 0 <= i < |ss| ==> Concat(ss)[i] == ss[i][0]
  {
    if ss != [] {
      ConcatSingletons(ss[..|ss| - 1]);
    }
  }

  /** When every part has at most one element, concatenation has at most one element per part. */
  lemma {:induction false} ConcatAtMostOne<T>(ss: seq<seq<T>>)
    requires forall i :: 0 <= i < |ss| ==> |ss[i]| <= 1
    ensures |Concat(ss)| <= |ss|
  {
    if ss != [] {
      ConcatAtMostOne(ss[..|ss| - 1]);
    }
  }

  /** When no part is empty, the first element of every part lies in the concatenation. */
  lemma {:induction false} ConcatHeads<T>(ss: seq<seq<T>>)
    requires forall i :: 0 <= i < |ss| ==> |ss[i]| > 0
    ensures |Concat(ss)| >= |ss|
    ensures forall i :: 0 <= i < |ss| ==> ss[i][0] in Concat(ss)
  {
    if ss != [] {
      var init := ss[..|ss| - 1];
      ConcatHeads(init);
      forall i | 0 <= i < |ss| ensures ss[i][0] in Concat(ss) {
        if i < |init| {
          assert ss[i] == init[i];
        }
      }
    }
  }

  /** An element lies in the concatenation iff it lies in one of the parts. */
  lemma {:induction false} InConcat<T>(ss: seq<seq<T>>, x: T)
    ensures x in Concat(ss) <==> exists i :: 0 <= i < |ss| && x in ss[i]
  {
    if ss != [] {
      var init := ss[..|ss| - 1];
      InConcat(init, x);
      if x in Concat(ss) && x !in ss[|ss| - 1] {
        var i :| 0 <= i < |init| && x in init[i];
        assert x in ss[i];
      }
      if exists i :: 0 <= i < |ss| && x in ss[i] {
        var i :| 0 <= i < |ss| && x in ss[i];
        if i < |ss| - 1 {
          assert x in init[i];
        }
      }
    }
  }

  /** Taking one more key out of the excluded set adds that key's entry back. */
  lemma MapMinusStep<K, V>(m: map<K, V>, excluded: set<K>, k: K)
    requires k in excluded && k in m
    ensures m - (excluded - {k}) == (m - excluded)[k := m[k]]
  {
  }

  /** Updating a union updates its right-hand side. */
  lemma MapUnionUpdate<K, V>(a: map<K, V>, b: map<K, V>, k: K, v: V)
    ensures (a + b)[k := v] == a + b[k := v]
  {
  }
}
