/** std::rotate on the whole read buffer, in place, by three reversals. */
module Rotation {
  import opened Prelude

  /** Reverses a[lo..hi]. */
  method ReverseRange(a: array<Byte>, lo: nat, hi: nat)
    requires lo <= hi <= a.Length
    modifies a
    ensures forall i :: lo <= i < hi ==> a[i] == old(a[lo + hi - 1 - i])
    ensures forall i :: 0 <= i < lo || hi <= i < a.Length ==> a[i] == old(a[i])
  {
    var i, j := lo, hi;
    while i + 1 < j
      invariant lo <= i <= j <= hi && i - lo == hi - j
      invariant forall k :: lo <= k < i || j <= k < hi ==> a[k] == old(a[lo + hi - 1 - k])
      invariant forall k :: i <= k < j ==> a[k] == old(a[k])
      invariant forall k :: 0 <= k < lo || hi <= k < a.Length ==> a[k] == old(a[k])
    {
      j := j - 1;
      a[i], a[j] := a[j], a[i];
      i := i + 1;
    }
  }

  /** What three reversals do to each index. */
  lemma ThreeReversals(s: Bytes, t: Bytes, u: Bytes, v: Bytes, k: nat)
    requires |s| == |t| == |u| == |v| && k <= |s|
    requires forall i :: 0 <= i < k ==> t[i] == s[k - 1 - i]
    requires forall i :: k <= i < |s| ==> t[i] == s[i]
    requires forall i :: 0 <= i < k ==> u[i] == t[i]
    requires forall i :: k <= i < |s| ==> u[i] == t[k + |s| - 1 - i]
    requires forall i :: 0 <= i < |s| ==> v[i] == u[|s| - 1 - i]
    ensures v == s[k..] + s[..k]
  {
    forall i | 0 <= i < |s| ensures v[i] == (s[k..] + s[..k])[i] {
      var j := |s| - 1 - i;
      assert v[i] == u[j];
      if j < k {
        assert u[j] == t[j] == s[k - 1 - j];
      } else {
        assert u[j] == t[k + |s| - 1 - j] == s[k + |s| - 1 - j];
      }
    }
  }

  /** std::rotate(begin, begin + k, end): the element at k comes first. */
  method Rotate(a: array<Byte>, k: nat)
    requires k <= a.Length
    modifies a
    ensures a[..] == old(a[k..]) + old(a[..k])
  {
    ghost var s := a[..];
    ReverseRange(a, 0, k);
    ghost var t := a[..];
    ReverseRange(a, k, a.Length);
    ghost var u := a[..];
    ReverseRange(a, 0, a.Length);
    ThreeReversals(s, t, u, a[..], k);
  }
}
