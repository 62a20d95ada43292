/** Records of one size laid end to end, slices of slices, and concatenations put together another way. */
module Records {
  /** k * size, the place of record k. */
  function Times(k: nat, size: nat): nat { if k == 0 then 0 else Times(k - 1, size) + size }

  lemma {:induction false} TimesIsProduct(k: nat, size: nat)
    ensures Times(k, size) == k * size
  {
    if k == 0 {
    } else {
      TimesIsProduct(k - 1, size);
    }
  }

  lemma Regroup<T>(a: seq<T>, b: seq<T>, c: seq<T>)
    ensures a + (b + c) == (a + b) + c && [] + a == a && a + [] == a
  {
  }

  function Concat<T>(parts: seq<seq<T>>): seq<T> {
    if parts == [] then [] else Concat(parts[..|parts| - 1]) + parts[|parts| - 1]
  }

  lemma SliceOfPrefix<T>(a: seq<T>, b: seq<T>, at: nat, size: nat)
    requires at + size <= |a|
    ensures (a + b)[at..at + size] == a[at..at + size]
  {
  }

  /** Record k of records of one size stands at k times the size. */
  lemma {:induction false} RecordAt<T>(parts: seq<seq<T>>, size: nat, k: nat)
    requires forall j :: 0 <= j < |parts| ==> |parts[j]| == size
    ensures |Concat(parts)| == Times(|parts|, size)
    ensures k < |parts| ==>
      (Times(k, size) + size <= Times(|parts|, size) &&
        Concat(parts)[Times(k, size)..Times(k, size) + size] == parts[k])
  {
    if parts == [] {
    } else {
      var n := |parts| - 1;
      var before, last := Concat(parts[..n]), parts[n];
      RecordAt(parts[..n], size, k);
      hide Concat, Times;
      if k < n {
        SliceOfPrefix(before, last, Times(k, size), size);
      } else if k == n {
        assert (before + last)[|before|..|before| + size] == last;
      }
    }
  }

  lemma SubSlice<T>(img: seq<T>, off: nat, data: seq<T>, a: nat, size: nat)
    requires off + |data| <= |img| && img[off..off + |data|] == data && a + size <= |data|
    ensures img[off + a..off + a + size] == data[a..a + size]
  {
    var part, sub := img[off + a..off + a + size], data[a..a + size];
    forall k | 0 <= k < size ensures part[k] == sub[k] {
      assert part[k] == img[off + a + k];
      assert img[off..off + |data|][a + k] == img[off + (a + k)];
    }
  }
}
