/** The `BitVector` class (freeciv-proxy/bitvector.py), proved against the set it stands for. */
module BitVectors {
  import opened Bits
  import opened Options

  class BitVector {
    var raw: seq<bv8>

    constructor (bytes: seq<bv8>)
      ensures raw == bytes
    {
      raw := bytes;
    }

    method IsSet(n: int) returns (isSet: bool)
      ensures isSet <==> n in Members(raw)
    {
      if n < 0 {
        return false;
      }
      var index := n / 8;
      if index >= |raw| {
        return false;
      }
      isSet := raw[index] & Mask(n % 8) != 0;
    }

    /** Adds exactly one member; the list grows only as far as it must. */
    method Set(n: int)
      modifies this
      ensures n < 0 ==> raw == old(raw)
      ensures n >= 0 ==> Members(raw) == old(Members(raw)) + {n}
      ensures n >= 0 ==> |raw| == if n / 8 < |old(raw)| then |old(raw)| else n / 8 + 1
    {
      if n < 0 {
        return;
      }
      var index := n / 8;
      while index >= |raw|
        invariant |old(raw)| <= |raw| && (|raw| <= index + 1 || raw == old(raw))
        invariant raw == old(raw) + Zeros(|raw| - |old(raw)|)
        decreases index - |raw|
      {
        raw := raw + [0];
      }
      ghost var grown := raw;
      raw := raw[index := raw[index] | Mask(n % 8)];
      ZerosAddNothing(old(raw), |grown| - |old(raw)|);
      WithBitAdds(grown, n);
    }

    /** Removes exactly one member and never changes the length. */
    method Unset(n: int)
      modifies this
      ensures Members(raw) == old(Members(raw)) - {n} && |raw| == |old(raw)|
      ensures n !in old(Members(raw)) ==> raw == old(raw)
    {
      if n < 0 {
        return;
      }
      var index := n / 8;
      if index >= |raw| {
        return;
      }
      WithoutBitRemoves(raw, n);
      raw := raw[index := raw[index] & !Mask(n % 8)];
      if n !in old(Members(raw)) {
        SetDeterminesBytes(raw, old(raw));
      }
    }

    method ToSet() returns (members: set<int>)
      ensures members == Members(raw)
    {
      members := {};
      for i := 0 to 8 * |raw|
        invariant members == set n | n in Members(raw) && n < i
      {
        var isSet := IsSet(i);
        if isSet {
          members := members + {i};
        }
      }
    }

    /** The one strictly increasing list of the members. */
    method ToList() returns (members: seq<int>)
      ensures Increasing(members) && SetOf(members) == Members(raw)
    {
      var unsorted := ToSet();
      members := [];
      for i := 0 to 8 * |raw|
        invariant Increasing(members) && SetOf(members) == set n | n in unsorted && n < i
      {
        if i in unsorted {
          AppendLarger(members, i);
          members := members + [i];
        }
      }
    }

    method Length() returns (bits: nat)
      ensures bits == 8 * |raw| && forall n <- Members(raw) :: 0 <= n < bits
    {
      bits := |raw| * 8;
    }
  }

  /** Appending a larger number keeps a list increasing and adds exactly that number. */
  lemma AppendLarger(l: seq<int>, n: int)
    requires Increasing(l) && forall m <- SetOf(l) :: m < n
    ensures Increasing(l + [n]) && SetOf(l + [n]) == SetOf(l) + {n}
  {
    assert forall j | 0 <= j < |l| :: l[j] in SetOf(l);
  }

  /** There is only one strictly increasing list of a set, so `ToList` says which list it returns. */
  lemma {:induction false} IncreasingListIsUnique(a: seq<int>, b: seq<int>)
    requires Increasing(a) && Increasing(b) && SetOf(a) == SetOf(b)
    ensures a == b
  {
    assert a != [] ==> a[0] in SetOf(b);
    assert b != [] ==> b[0] in SetOf(a);
    if a != [] && b != [] {
      var s, t := a[..|a| - 1], b[..|b| - 1];
      var x, y := a[|s|], b[|t|];
      assert a == s + [x] && b == t + [y];
      assert x in SetOf(b) && y in SetOf(a);
      assert x == y;
      WithoutLast(s, x);
      WithoutLast(t, x);
      IncreasingListIsUnique(s, t);
    }
  }

  lemma WithoutLast(s: seq<int>, x: int)
    requires Increasing(s + [x])
    ensures Increasing(s) && SetOf(s) == SetOf(s + [x]) - {x}
  {
    var l := s + [x];
    assert forall j | 0 <= j < |s| :: l[j] == s[j] && l[j] < l[|s|];
    forall n ensures n in SetOf(s) <==> n in SetOf(l) && n != x {
      if n in SetOf(l) && n != x {
        var j :| 0 <= j < |l| && l[j] == n;
        assert s[j] == n;
      }
    }
  }

  /** `get_unit_type_actions`: the actions of a unit type in ascending order. */
  method UnitTypeActions(bytes: Option<seq<bv8>>) returns (actions: seq<int>)
    ensures Increasing(actions)
    ensures SetOf(actions) == set n | n in Members(bytes.GetOr([])) && n < 116
  {
    actions := [];
    for action := 0 to ACTION_COUNT
      invariant Increasing(actions)
      invariant SetOf(actions) == set n | n in Members(bytes.GetOr([])) && n < action
    {
      ActionTestIsMembership(bytes, action);
      if UtypeCanDoAction(bytes, action) == Some(true) {
        AppendLarger(actions, action);
        actions := actions + [action];
      }
    }
  }
}
