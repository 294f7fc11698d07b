/**
 * The layout of the evolving variables at one (jx, jy) point of the state
 * vector: first every 2D variable in registration order, then, for each z
 * index jz in turn, every 3D variable in registration order.
 */
module SlotLayout {

  /** One entry of the per-point layout: 2D variable i, or 3D variable i at z index jz. */
  datatype Slot = Slot2(i: nat) | Slot3(i: nat, jz: nat)

  /** Where a slot sits within the values of one point. */
  function Offset(n2d: nat, n3d: nat, s: Slot): nat
  {
    match s
    case Slot2(i) => i
    case Slot3(i, jz) => n2d + jz * n3d + i
  }

  /** The slot names a registered variable and, for 3D variables, an evolved z index. */
  predicate SlotIn(s: Slot, n2d: nat, n3d: nat, ncz: nat)
  {
    match s
    case Slot2(i) => i < n2d
    case Slot3(i, jz) => i < n3d && jz < ncz
  }

  /** The 3D variables in registration order at one z index. */
  function Layer(n3d: nat, jz: nat): seq<Slot>
  {
    seq(n3d, (i: nat) => Slot3(i, jz))
  }

  /** The layers for z indices 0 .. nz - 1. */
  function Layers(n3d: nat, nz: nat): seq<Slot>
  {
    if nz == 0 then [] else Layers(n3d, nz - 1) + Layer(n3d, nz - 1)
  }

  /** The 2D variables in registration order. */
  function Slots2(n2d: nat): seq<Slot>
  {
    seq(n2d, (i: nat) => Slot2(i))
  }

  /** The whole per-point layout, in the order the packer copies values. */
  function Slots(n2d: nat, n3d: nat, ncz: nat): seq<Slot>
  {
    Slots2(n2d) + Layers(n3d, ncz)
  }

  /** The z layers hold the 3D slots, 3D variable i at z index jz at position jz * n3d + i. */
  lemma {:induction false} LayersLayout(n3d: nat, nz: nat)
    ensures |Layers(n3d, nz)| == nz * n3d
    ensures forall k :: 0 <= k < |Layers(n3d, nz)| ==>
              Layers(n3d, nz)[k].Slot3? && Layers(n3d, nz)[k].i < n3d && Layers(n3d, nz)[k].jz < nz &&
              Layers(n3d, nz)[k].jz * n3d + Layers(n3d, nz)[k].i == k
  {
    if nz > 0 {
      LayersLayout(n3d, nz - 1);
      var prev, last := Layers(n3d, nz - 1), Layer(n3d, nz - 1);
      var all: seq<Slot> := prev + last;
      assert (nz - 1) * n3d + n3d == nz * n3d;
      forall k | 0 <= k < |all|
        ensures all[k].Slot3? && all[k].i < n3d && all[k].jz < nz && all[k].jz * n3d + all[k].i == k
      {
        if k >= |prev| {
          assert all[k] == Slot3(k - |prev|, nz - 1);
        }
      }
    }
  }

  /** The layers for fewer z indices are a prefix of the layers for more. */
  lemma {:induction false} LayersPrefix(n3d: nat, a: nat, b: nat)
    requires a <= b
    ensures Layers(n3d, a) <= Layers(n3d, b)
  {
    if a < b {
      LayersPrefix(n3d, a, b - 1);
    }
  }

  /**
   * Offset k of a point's values holds 2D variable k when k < n2d, and otherwise
   * the 3D variable i at z index jz with k == n2d + jz * n3d + i.
   */
  lemma {:induction false} SlotsLayout(n2d: nat, n3d: nat, ncz: nat)
    ensures |Slots(n2d, n3d, ncz)| == n2d + ncz * n3d
    ensures forall k :: 0 <= k < n2d ==> Slots(n2d, n3d, ncz)[k] == Slot2(k)
    ensures forall k :: 0 <= k < |Slots(n2d, n3d, ncz)| ==>
              Offset(n2d, n3d, Slots(n2d, n3d, ncz)[k]) == k && SlotIn(Slots(n2d, n3d, ncz)[k], n2d, n3d, ncz)
  {
    LayersLayout(n3d, ncz);
    var s := Slots(n2d, n3d, ncz);
    forall k | 0 <= k < |s|
      ensures Offset(n2d, n3d, s[k]) == k && SlotIn(s[k], n2d, n3d, ncz)
    {
      if k >= n2d {
        assert s[k] == Layers(n3d, ncz)[k - n2d];
      }
    }
  }

  /** No slot appears twice in the layout. */
  lemma {:induction false} SlotsDistinct(n2d: nat, n3d: nat, ncz: nat)
    ensures forall a, b :: 0 <= a < b < |Slots(n2d, n3d, ncz)| ==> Slots(n2d, n3d, ncz)[a] != Slots(n2d, n3d, ncz)[b]
  {
    SlotsLayout(n2d, n3d, ncz);
  }

  /** Every slot of the layout names a registered variable and an evolved z index, and vice versa. */
  lemma {:induction false} SlotsMembers(n2d: nat, n3d: nat, ncz: nat)
    ensures forall s :: s in Slots(n2d, n3d, ncz) <==> SlotIn(s, n2d, n3d, ncz)
  {
    SlotsLayout(n2d, n3d, ncz);
    LayersLayout(n3d, ncz);
    var sl := Slots(n2d, n3d, ncz);
    forall s | SlotIn(s, n2d, n3d, ncz)
      ensures s in sl
    {
      match s
      case Slot2(i) =>
        assert sl[i] == s;
      case Slot3(i, jz) =>
        LayerInLayers(n3d, ncz, i, jz);
        assert s in Layers(n3d, ncz);
    }
  }

  lemma {:induction false} LayerInLayers(n3d: nat, nz: nat, i: nat, jz: nat)
    requires i < n3d && jz < nz
    ensures Slot3(i, jz) in Layers(n3d, nz)
  {
    if jz == nz - 1 {
      assert Layer(n3d, jz)[i] == Slot3(i, jz);
    } else {
      LayerInLayers(n3d, nz - 1, i, jz);
    }
  }

  /** 3D variable i at z index jz sits at offset n2d + jz * n3d + i. */
  lemma {:induction false} SlotAt3(n2d: nat, n3d: nat, ncz: nat, i: nat, jz: nat)
    requires i < n3d && jz < ncz
    ensures n2d + jz * n3d + i < |Slots(n2d, n3d, ncz)|
    ensures Slots(n2d, n3d, ncz)[n2d + jz * n3d + i] == Slot3(i, jz)
  {
    SlotsMembers(n2d, n3d, ncz);
    SlotsLayout(n2d, n3d, ncz);
    var sl := Slots(n2d, n3d, ncz);
    assert Slot3(i, jz) in sl;
    var k :| 0 <= k < |sl| && sl[k] == Slot3(i, jz);
    assert Offset(n2d, n3d, sl[k]) == k;
  }
}
