/** The three point edits of a spline (`Insert`, `Remove`, `SetPoint`) on the control list, and
    the proof that each one's refresh window covers every slot whose canonical piece changed. */
module Edits {
  import opened EndTypes
  import opened Extension
  import opened Tangents
  import opened Locality

  /** The control list after `v.Insert(k, x)`. */
  function Inserted(v: seq<real>, k: int, x: real): (w: seq<real>)
    requires 0 <= k <= |v|
    ensures |w| == |v| + 1 && w[k] == x
    ensures forall i :: 0 <= i < k ==> w[i] == v[i]
    ensures forall i :: k < i < |w| ==> w[i] == v[i - 1]
  {
    v[..k] + [x] + v[k..]
  }

  /** The control list after `v.RemoveAt(k)`. */
  function Removed(v: seq<real>, k: int): (w: seq<real>)
    requires 0 <= k < |v|
    ensures |w| == |v| - 1
    ensures forall i :: 0 <= i < k ==> w[i] == v[i]
    ensures forall i :: k <= i < |w| ==> w[i] == v[i + 1]
  {
    v[..k] + v[k + 1..]
  }

  /** Inserting a point and removing it again restores the list. */
  lemma RemoveUndoesInsert(v: seq<real>, k: int, x: real)
    requires 0 <= k <= |v|
    ensures Removed(Inserted(v, k, x), k) == v
  {
  }

  /** Two open lists that share their first j values (j >= 2) share their extension left of j. */
  lemma OpenSharedPrefix(w: seq<real>, v: seq<real>, j: int)
    requires |w| >= 2 && |v| >= 2 && 2 <= j <= |w| && j <= |v|
    requires forall i :: 0 <= i < j ==> w[i] == v[i]
    ensures forall p :: p < j ==> Extended(Open, w, p) == Extended(Open, v, p)
  {
    assert w[0] == v[0] && w[1] == v[1];
  }

  /** Two open lists whose values from j on agree up to a shift by delta (with at least two
      values in the shared part) have shifted extensions from j on. */
  lemma OpenSharedSuffix(w: seq<real>, v: seq<real>, j: int, delta: int)
    requires |w| >= 2 && |v| >= 2 && |v| == |w| + delta && 0 <= j <= |w| - 2 && j + delta >= 0
    requires forall i :: j <= i < |w| ==> w[i] == v[i + delta]
    ensures forall p :: p >= j ==> Extended(Open, w, p) == Extended(Open, v, p + delta)
  {
    assert w[|w| - 1] == v[|v| - 1] && w[|w| - 2] == v[|v| - 2];
  }

  /** The window `[k - R - 1, k + R]` that `Insert(k, x)` refreshes, once the spline has more
      than `2R + 2` points, covers every slot whose piece changed. */
  lemma InsertWindow(variant: Variant, e: EndType, v: seq<real>, k: int, x: real)
    requires 0 <= k <= |v| && |v| + 1 > 2 * Radius(variant) + 2
    ensures var w, r := Inserted(v, k, x), Radius(variant);
            WindowFits(w, v, k - r - 1, k + r, -1) &&
            LeftZone(variant, e, w, v, k - r - 1, k + r) &&
            RightZone(variant, e, w, v, k - r - 1, k + r, -1)
  {
    var w, r := Inserted(v, k, x), Radius(variant);
    var m := |w|;
    if e == Open {
      if k - r - 1 >= 1 {
        OpenSharedPrefix(w, v, k);
      }
      if k + r <= m - 2 {
        OpenSharedSuffix(w, v, k + 1, -1);
      }
    } else {
      forall p | k - m + 1 <= p <= k - 1
        ensures Extended(e, w, p) == Extended(e, v, p)
      {
        if p < 0 {
          CloseExtensionNear(w, p);
          CloseExtensionNear(v, p);
        }
      }
      forall p | k + 1 <= p <= m + k - 1
        ensures Extended(e, w, p) == Extended(e, v, p - 1)
      {
        if p >= m {
          CloseExtensionNear(w, p);
          CloseExtensionNear(v, p - 1);
        }
      }
    }
  }

  /** The window `[k - R - 1, k + R - 1]` that `Remove(k)` refreshes, once the spline has more
      than `2R + 1` points left, covers every slot whose piece changed. */
  lemma RemoveWindow(variant: Variant, e: EndType, v: seq<real>, k: int)
    requires 0 <= k < |v| && |v| - 1 > 2 * Radius(variant) + 1
    ensures var w, r := Removed(v, k), Radius(variant);
            WindowFits(w, v, k - r - 1, k + r - 1, 1) &&
            LeftZone(variant, e, w, v, k - r - 1, k + r - 1) &&
            RightZone(variant, e, w, v, k - r - 1, k + r - 1, 1)
  {
    var w, r := Removed(v, k), Radius(variant);
    var m := |w|;
    if e == Open {
      if k - r - 1 >= 1 {
        OpenSharedPrefix(w, v, k);
      }
      if k + r - 1 <= m - 2 {
        OpenSharedSuffix(w, v, k, 1);
      }
    } else {
      forall p | k - m <= p <= k - 1
        ensures Extended(e, w, p) == Extended(e, v, p)
      {
        if p < 0 {
          CloseExtensionNear(w, p);
          CloseExtensionNear(v, p);
        }
      }
      forall p | k <= p <= m + k - 1
        ensures Extended(e, w, p) == Extended(e, v, p + 1)
      {
        if p >= m {
          CloseExtensionNear(w, p);
          CloseExtensionNear(v, p + 1);
        }
      }
    }
  }

  /** The window `[k - R - 1, k + R]` that `SetPoint(k, x)` refreshes, once the spline has more
      than `2R + 2` points, covers every slot whose piece changed. */
  lemma ReplaceWindow(variant: Variant, e: EndType, v: seq<real>, k: int, x: real)
    requires 0 <= k < |v| && |v| > 2 * Radius(variant) + 2
    ensures var w, r := v[k := x], Radius(variant);
            WindowFits(w, v, k - r - 1, k + r, 0) &&
            LeftZone(variant, e, w, v, k - r - 1, k + r) &&
            RightZone(variant, e, w, v, k - r - 1, k + r, 0)
  {
    var w, r := v[k := x], Radius(variant);
    var m := |w|;
    if e == Open {
      if k - r - 1 >= 1 {
        OpenSharedPrefix(w, v, k);
      }
      if k + r <= m - 2 {
        OpenSharedSuffix(w, v, k + 1, 0);
      }
    } else {
      forall p | k - m + 1 <= p <= k - 1
        ensures Extended(e, w, p) == Extended(e, v, p)
      {
        if p < 0 {
          CloseExtensionNear(w, p);
          CloseExtensionNear(v, p);
        }
      }
      forall p | k + 1 <= p <= m + k - 1
        ensures Extended(e, w, p) == Extended(e, v, p + 0)
      {
        if p >= m {
          CloseExtensionNear(w, p);
          CloseExtensionNear(v, p);
        }
      }
    }
  }
}
