/**
 The compact delegation map of a host: strictly increasing lower bounds in one list, and in a second
 list the owner of the keys from each bound up to the next. Proved to be the total map of the protocol.
 */
module DelegationMaps {
  import opened Options
  import opened KeyRanges
  import opened SingleDelivery
  import opened HostProtocol

  predicate StrictlyIncreasing(s: seq<Key>) {
    forall i, j :: 0 <= i < j < |s| ==> s[i] < s[j]
  }

  /** A list of keys kept in strictly increasing order. */
  class StrictlyOrderedVec {
    var v: seq<Key>

    predicate Valid()
      reads this
    {
      StrictlyIncreasing(v)
    }

    constructor ()
      ensures Valid() && v == []
    {
      v := [];
    }

    method Remove(i: nat) returns (k: Key)
      requires Valid() && i < |v|
      modifies this
      ensures Valid() && k == old(v[i]) && v == old(v[..i] + v[i + 1..])
    {
      k := v[i];
      v := v[..i] + v[i + 1..];
    }

    /** Removes the entries at indices [start, end), one at a time. */
    method Erase(start: nat, end: nat)
      requires Valid() && start <= end <= |v|
      modifies this
      ensures Valid() && v == old(v[..start] + v[end..])
    {
      var deleted := 0;
      while deleted < end - start
        invariant 0 <= deleted <= end - start
        invariant v == old(v[..start]) + old(v[start + deleted..])
        invariant Valid()
      {
        var _ := Remove(start);
        deleted := deleted + 1;
      }
    }

    method Insert(k: Key) returns (i: nat)
      requires Valid() && k !in v
      modifies this
      ensures Valid() && i <= |old(v)| && v == old(v[..i] + [k] + v[i..])
    {
      i := 0;
      while i < |v| && v[i] < k
        invariant i <= |v|
        invariant forall j :: 0 <= j < i ==> v[j] < k
      {
        i := i + 1;
      }
      v := v[..i] + [k] + v[i..];
    }
  }

  // ----- gaps -----

  /** No key of `m` lies strictly between `lo` and `hi`. */
  ghost predicate Gap(m: map<Key, EndPoint>, lo: KeyIterator, hi: KeyIterator) {
    forall k :: k in m ==> !(lo.Lt(At(k)) && At(k).Lt(hi))
  }

  function Erased(m: map<Key, EndPoint>, lo: KeyIterator, hi: KeyIterator): map<Key, EndPoint> {
    map k | k in m && !Between(lo, At(k), hi) :: m[k]
  }

  lemma SettingSplitsGaps(m: map<Key, EndPoint>, k: Key, v: EndPoint, lo: KeyIterator, hi: KeyIterator)
    ensures Gap(m[k := v], lo, hi) <==> Gap(m, lo, hi) && !(lo.Lt(At(k)) && At(k).Lt(hi))
  {
    assert k in m[k := v];
    assert forall j :: j in m ==> j in m[k := v];
  }

  /** Exactly the new gaps are those that join a gap below `lo` to a gap above `hi` across an absent `hi`. */
  lemma ErasingJoinsGaps(m: map<Key, EndPoint>, lo: KeyIterator, hi: KeyIterator, x: KeyIterator, y: KeyIterator)
    ensures Gap(Erased(m, lo, hi), x, y) <==>
            || Gap(m, x, y)
            || (Gap(m, x, lo) && Gap(m, hi, y) && (!hi.Lt(y) || hi.End? || hi.k !in Erased(m, lo, hi)))
  {
    var e := Erased(m, lo, hi);
    if Gap(e, x, y) && !Gap(m, x, y) {
      var k :| k in m && x.Lt(At(k)) && At(k).Lt(y);
      assert Between(lo, At(k), hi);
      forall j | j in m
        ensures !(x.Lt(At(j)) && At(j).Lt(lo)) && !(hi.Lt(At(j)) && At(j).Lt(y))
      {
        assert j !in e || !(x.Lt(At(j)) && At(j).Lt(y));
      }
    }
  }

  /** The parallel lists `keys` and `vals` hold the entries of `m`. */
  ghost predicate Lists(keys: seq<Key>, vals: seq<EndPoint>, m: map<Key, EndPoint>) {
    && |keys| == |vals|
    && (forall k :: k in m <==> k in keys)
    && forall i :: 0 <= i < |vals| ==> m[keys[i]] == vals[i]
  }

  lemma OverwrittenEntry(keys: seq<Key>, vals: seq<EndPoint>, m: map<Key, EndPoint>, i: nat, v: EndPoint)
    requires StrictlyIncreasing(keys) && Lists(keys, vals, m) && i < |keys|
    ensures Lists(keys, vals[i := v], m[keys[i] := v])
  {
  }

  lemma InsertedEntry(keys: seq<Key>, vals: seq<EndPoint>, m: map<Key, EndPoint>, i: nat, k: Key, v: EndPoint)
    requires Lists(keys, vals, m) && i <= |keys| && k !in keys
    ensures Lists(keys[..i] + [k] + keys[i..], vals[..i] + [v] + vals[i..], m[k := v])
  {
    var keys', vals' := keys[..i] + [k] + keys[i..], vals[..i] + [v] + vals[i..];
    assert keys'[i] == k;
    forall j | 0 <= j < |keys|
      ensures keys[j] in keys'
    {
      assert keys'[if j < i then j else j + 1] == keys[j];
    }
    forall j | 0 <= j < |keys'|
      ensures keys'[j] in m[k := v] && m[k := v][keys'[j]] == vals'[j]
    {
      var o := if j < i then j else j - 1;
      if j != i { assert keys'[j] == keys[o] && vals'[j] == vals[o] && keys[o] in keys; }
    }
  }

  lemma CutEntries(keys: seq<Key>, vals: seq<EndPoint>, m: map<Key, EndPoint>, start: nat, end: nat,
                   lo: KeyIterator, hi: KeyIterator)
    requires Lists(keys, vals, m) && start <= end <= |keys|
    requires forall k :: k in keys[..start] + keys[end..] <==> k in keys && !Between(lo, At(k), hi)
    ensures Lists(keys[..start] + keys[end..], vals[..start] + vals[end..], Erased(m, lo, hi))
  {
    var keys', vals' := keys[..start] + keys[end..], vals[..start] + vals[end..];
    forall i | 0 <= i < |vals'|
      ensures keys'[i] in m && !Between(lo, At(keys'[i]), hi) && m[keys'[i]] == vals'[i]
    {
      assert keys'[i] in keys';
      assert keys'[i] == keys[if i < start then i else end + (i - start)];
    }
  }

  /** A map over strictly increasing keys, as two parallel lists. */
  class StrictlyOrderedMap {
    const keys: StrictlyOrderedVec
    var vals: seq<EndPoint>
    ghost var m: map<Key, EndPoint>

    ghost predicate Valid()
      reads this, keys
    {
      && keys.Valid()
      && Lists(keys.v, vals, m)
    }

    constructor ()
      ensures Valid() && m == map[] && fresh(keys)
    {
      keys := new StrictlyOrderedVec();
      vals := [];
      m := map[];
    }

    method FindKey(k: Key) returns (o: Option<nat>)
      requires Valid()
      ensures o == None <==> k !in m
      ensures o.Some? ==> o.value < |keys.v| && keys.v[o.value] == k
    {
      var i := 0;
      while i < |keys.v|
        invariant i <= |keys.v|
        invariant forall j :: 0 <= j < i ==> keys.v[j] != k
      {
        if keys.v[i] == k {
          return Some(i);
        }
        i := i + 1;
      }
      return None;
    }

    /**
     Do all values at indices [lo, hi] equal `v`? If not, `almost` says whether the only disagreement is at
     `hi` itself.
     */
    method ValuesAgree(lo: nat, hi: nat, v: EndPoint) returns (agree: bool, almost: bool)
      requires lo <= hi < |vals|
      ensures agree <==> forall i :: lo <= i <= hi ==> vals[i] == v
      ensures !agree ==> (almost <==> vals[hi] != v && forall i :: lo <= i < hi ==> vals[i] == v)
    {
      var i := lo;
      while i <= hi
        invariant lo <= i <= hi + 1
        invariant forall j :: lo <= j < i ==> vals[j] == v
      {
        if vals[i] != v {
          if i == hi {
            return false, true;
          } else {
            return false, false;
          }
        }
        i := i + 1;
      }
      return true, true;
    }

    method Get(k: Key) returns (o: Option<EndPoint>)
      requires Valid()
      ensures o == if k in m then Some(m[k]) else None
    {
      var i := FindKey(k);
      match i {
        case None => return None;
        case Some(n) => return Some(vals[n]);
      }
    }

    method Set(k: Key, v: EndPoint)
      requires Valid()
      modifies this, keys
      ensures Valid() && m == old(m)[k := v]
    {
      var found := FindKey(k);
      match found {
        case Some(i) =>
          OverwrittenEntry(keys.v, vals, m, i, v);
          vals := vals[i := v];
        case None =>
          ghost var was := keys.v;
          var index := keys.Insert(k);
          InsertedEntry(was, vals, m, index, k, v);
          vals := vals[..index] + [v] + vals[index..];
      }
      m := m[k := v];
    }

    /** The index of the greatest bound that is not above `iter`. */
    method GreatestLowerBoundIndex(iter: KeyIterator) returns (bound: nat)
      requires Valid() && ZERO_KEY in m
      ensures bound < |keys.v|
      ensures !iter.Lt(At(keys.v[bound]))
      ensures forall j :: bound < j < |keys.v| ==> iter.Lt(At(keys.v[j]))
    {
      bound := 0;
      var i := 1;
      while i < |keys.v|
        invariant 1 <= i <= |keys.v|
        invariant bound == i - 1
        invariant forall j :: 0 <= j < i ==> !iter.Lt(At(keys.v[j]))
      {
        if iter.Lt(At(keys.v[i])) {
          break;
        }
        bound := i;
        i := i + 1;
      }
    }

    /** Removes the values at indices [start, end), one at a time. */
    method EraseVals(start: nat, end: nat)
      requires start <= end <= |vals|
      modifies `vals
      ensures vals == old(vals[..start] + vals[end..])
    {
      var deleted := 0;
      while deleted < end - start
        invariant 0 <= deleted <= end - start
        invariant vals == old(vals[..start]) + old(vals[start + deleted..])
      {
        vals := vals[..start] + vals[start + 1..];
        deleted := deleted + 1;
      }
    }

    /** Removes exactly the keys in [lo, hi). */
    method Erase(lo: KeyIterator, hi: KeyIterator)
      requires Valid()
      modifies this, keys
      ensures Valid() && m == Erased(old(m), lo, hi)
    {
      var start := 0;
      while start < |keys.v| && lo.Above(keys.v[start])
        invariant start <= |keys.v|
        invariant forall j :: 0 <= j < start ==> lo.Above(keys.v[j])
      {
        start := start + 1;
      }
      var end := start;
      while end < |keys.v| && hi.Above(keys.v[end])
        invariant start <= end <= |keys.v|
        invariant forall j :: start <= j < end ==> hi.Above(keys.v[j])
      {
        end := end + 1;
      }
      ErasedIndices(keys.v, start, end, lo, hi);
      CutEntries(keys.v, vals, m, start, end, lo, hi);
      keys.Erase(start, end);
      EraseVals(start, end);
      m := Erased(m, lo, hi);
    }
  }

  /** Cutting [start, end) out of an increasing list removes exactly the keys in [lo, hi). */
  lemma ErasedIndices(s: seq<Key>, start: nat, end: nat, lo: KeyIterator, hi: KeyIterator)
    requires StrictlyIncreasing(s) && start <= end <= |s|
    requires forall j :: 0 <= j < start ==> lo.Above(s[j])
    requires start < |s| ==> !lo.Above(s[start])
    requires forall j :: start <= j < end ==> hi.Above(s[j])
    requires end < |s| ==> !hi.Above(s[end])
    ensures forall k :: k in s[..start] + s[end..] <==> k in s && !Between(lo, At(k), hi)
  {
    forall k | k in s
      ensures k in s[..start] + s[end..] <==> !Between(lo, At(k), hi)
    {
      var i :| 0 <= i < |s| && s[i] == k;
      if i < start {
        assert (s[..start] + s[end..])[i] == k;
      } else if i >= end {
        assert (s[..start] + s[end..])[start + (i - end)] == k;
      }
    }
  }

  // ----- the delegation map -----

  /** `i` is the greatest bound at or below `k`. */
  ghost predicate Covers(lows: map<Key, EndPoint>, i: Key, k: Key) {
    && i in lows
    && i <= k
    && forall j :: j in lows && i < j ==> k < j
  }

  /** The bounds `lows` say of every key what the total map `m` says. */
  ghost predicate Represents(lows: map<Key, EndPoint>, m: DelegationTable) {
    && ZERO_KEY in lows
    && Complete(m)
    && forall k: Key, i: Key :: Covers(lows, i, k) ==> m[k] == lows[i]
  }

  /** What `Set` does to the bounds, given the owner of `hi`. */
  function Rebound(lows: map<Key, EndPoint>, lo: KeyIterator, hi: KeyIterator, atHi: EndPoint,
                   dst: EndPoint): map<Key, EndPoint>
    requires lo.At?
  {
    Erased(if hi.At? then lows[hi.k := atHi] else lows, lo, hi)[lo.k := dst]
  }

  lemma ReboundRepresents(lows: map<Key, EndPoint>, m: DelegationTable, lo: KeyIterator, hi: KeyIterator,
                          atHi: EndPoint, glb: Key, dst: EndPoint)
    requires Represents(lows, m)
    requires lo.Lt(hi)
    requires hi.At? ==> Covers(lows, glb, hi.k) && atHi == m[hi.k]
    ensures Represents(Rebound(lows, lo, hi, atHi, dst), Reassign(m, KeyRange(lo, hi), dst))
  {
    var lows', m' := Rebound(lows, lo, hi, atHi, dst), Reassign(m, KeyRange(lo, hi), dst);
    forall k: Key, i: Key | Covers(lows', i, k)
      ensures m'[k] == lows'[i]
    {
      if Between(lo, At(k), hi) {
        assert lo.k in lows';
      } else if k < lo.k {
        assert forall j :: j in lows && j < lo.k ==> j in lows';
        assert Covers(lows, i, k);
      } else {
        assert hi.k in lows';
        assert forall j :: j in lows && hi.k < j ==> j in lows';
        assert Covers(lows, if i == hi.k then glb else i, k);
      }
    }
  }

  class DelegationMap {
    const lows: StrictlyOrderedMap
    ghost var m: DelegationTable

    ghost predicate Valid()
      reads this, lows, lows.keys
    {
      && lows.Valid()
      && Represents(lows.m, m)
      && Complete(m)
      && forall k: Key :: m[k].ValidPhysicalAddress()
    }

    constructor (root: EndPoint)
      requires root.ValidPhysicalAddress()
      ensures Valid() && m == InitialTable(root) && fresh(lows) && fresh(lows.keys)
    {
      lows := new StrictlyOrderedMap();
      new;
      lows.Set(ZERO_KEY, root);
      m := InitialTable(root);
    }

    /** The owner of `k`, and as evidence the bound that covers it. */
    method GetInternal(k: Key) returns (id: EndPoint, ghost glb: Key)
      requires Valid()
      ensures id == m[k] && id.ValidPhysicalAddress() && Covers(lows.m, glb, k)
    {
      var bound := lows.GreatestLowerBoundIndex(At(k));
      glb := lows.keys.v[bound];
      BoundCovers(lows, bound, k);
      var found := lows.Get(lows.keys.v[bound]);
      id := found.value;
    }

    method Get(k: Key) returns (id: EndPoint)
      requires Valid()
      ensures id == m[k] && id.ValidPhysicalAddress()
    {
      ghost var glb;
      id, glb := GetInternal(k);
    }

    /** Maps exactly the keys of [lo, hi) to `dst`. */
    method Set(lo: KeyIterator, hi: KeyIterator, dst: EndPoint)
      requires Valid() && dst.ValidPhysicalAddress()
      modifies this, lows, lows.keys
      ensures Valid()
      ensures m == Reassign(old(m), KeyRange(lo, hi), dst)
    {
      if lo.Lt(hi) {
        ghost var bounds := lows.m;
        ghost var atHi, glb := dst, ZERO_KEY;
        if hi.At? {
          var id;
          id, glb := GetInternal(hi.k);
          lows.Set(hi.k, id);
          atHi := id;
        }
        lows.Erase(lo, hi);
        lows.Set(lo.k, dst);
        ReboundRepresents(bounds, m, lo, hi, atHi, glb, dst);
        m := Reassign(m, KeyRange(lo, hi), dst);
      }
    }

    /** Are the keys of [lo, hi), however many, all on `dst`? Only stored bounds are looked at. */
    method RangeConsistentImpl(lo: KeyIterator, hi: KeyIterator, dst: EndPoint) returns (ret: bool)
      requires Valid()
      ensures ret <==> RangeIsOn(m, KeyRange(lo, hi), dst)
    {
      if lo.Lt(hi) {
        var loGlb := lows.GreatestLowerBoundIndex(lo);
        var hiGlb := lows.GreatestLowerBoundIndex(hi);
        var agree, almost := lows.ValuesAgree(loGlb, hiGlb, dst);
        if agree {
          ret := true;
        } else if !agree && almost && !hi.End? && lows.keys.v[hiGlb] == hi.k {
          ret := true; // the one disagreement is exactly at hi, which is not in the range
        } else {
          ret := false;
        }
        if ret {
          AgreeingBoundsDecide(this, lo, hi, dst, loGlb, hiGlb);
        } else {
          ghost var bad :| loGlb <= bad <= hiGlb && lows.vals[bad] != dst
              && (bad == hiGlb ==> hi != At(lows.keys.v[hiGlb]));
          DisagreeingBoundRefutes(this, lo, hi, dst, loGlb, hiGlb, bad);
        }
      } else {
        ret := true;
      }
    }
  }

  lemma ValidImpliesComplete(d: DelegationMap)
    requires d.Valid()
    ensures Complete(d.m)
  {
  }

  lemma BoundCovers(lows: StrictlyOrderedMap, i: nat, k: Key)
    requires lows.Valid() && i < |lows.keys.v|
    requires lows.keys.v[i] <= k && (i + 1 < |lows.keys.v| ==> k < lows.keys.v[i + 1])
    ensures Covers(lows.m, lows.keys.v[i], k) && lows.m[lows.keys.v[i]] == lows.vals[i]
  {
  }

  lemma {:induction false} SomeBoundCovers(s: seq<Key>, k: Key) returns (i: nat)
    requires StrictlyIncreasing(s) && |s| > 0 && s[0] <= k
    ensures i < |s| && s[i] <= k && (i + 1 < |s| ==> k < s[i + 1])
  {
    if s[|s| - 1] <= k {
      i := |s| - 1;
    } else {
      i := SomeBoundCovers(s[..|s| - 1], k);
    }
  }

  lemma AgreeingBoundsDecide(d: DelegationMap, lo: KeyIterator, hi: KeyIterator, dst: EndPoint, loGlb: nat, hiGlb: nat)
    requires d.Valid() && lo.Lt(hi) && loGlb <= hiGlb < |d.lows.vals|
    requires !lo.Lt(At(d.lows.keys.v[loGlb]))
    requires forall j :: hiGlb < j < |d.lows.vals| ==> hi.Lt(At(d.lows.keys.v[j]))
    requires forall i :: loGlb <= i < hiGlb ==> d.lows.vals[i] == dst
    requires d.lows.vals[hiGlb] == dst || hi == At(d.lows.keys.v[hiGlb])
    ensures RangeIsOn(d.m, KeyRange(lo, hi), dst)
  {
    forall k: Key | KeyRange(lo, hi).Contains(k)
      ensures d.m[k] == dst
    {
      var s := d.lows.keys.v;
      assert s[0] <= s[loGlb];
      var i := SomeBoundCovers(s, k);
      BoundCovers(d.lows, i, k);
      assert loGlb <= i <= hiGlb;
    }
  }

  lemma DisagreeingBoundRefutes(d: DelegationMap, lo: KeyIterator, hi: KeyIterator, dst: EndPoint,
                                loGlb: nat, hiGlb: nat, bad: nat)
    requires d.Valid() && lo.Lt(hi) && loGlb <= bad <= hiGlb < |d.lows.vals|
    requires !lo.Lt(At(d.lows.keys.v[loGlb])) && !hi.Lt(At(d.lows.keys.v[hiGlb]))
    requires forall j :: loGlb < j < |d.lows.vals| ==> lo.Lt(At(d.lows.keys.v[j]))
    requires d.lows.vals[bad] != dst && (bad == hiGlb ==> hi != At(d.lows.keys.v[hiGlb]))
    ensures !RangeIsOn(d.m, KeyRange(lo, hi), dst)
  {
    var k := if bad == loGlb then lo.k else d.lows.keys.v[bad];
    BoundCovers(d.lows, bad, k);
    assert KeyRange(lo, hi).Contains(k);
  }

}
