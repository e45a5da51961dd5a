/** The host's `Plane` record from src/structs/plane.rs and the way it is
    serialised: its vector of loadout pointers becomes the list of loadouts
    the non-null pointers point at. */
module StructsPlane {
  import opened Wrappers
  import opened Bytes

  /** A host `CVec<*const T>`: the addresses of its first slot and of the slot
      past its last one, 0 standing for the null pointer. Slot `i` of the host
      memory holds a pointer: `None` for null, `Some(t)` for a pointer to `t`. */
  datatype CVec = CVec(items: nat, itemsEnd: nat)

  /** `#[repr(C)] struct Plane`: eight bytes of padding, then the loadouts. */
  datatype Plane = Plane(padding: seq<byte>, loadouts: CVec)

  /** The pointees of the non-null pointers among `slots`, in order. */
  function Present<T>(slots: seq<Option<T>>): (r: seq<T>)
    ensures |r| <= |slots|
  {
    if slots == [] then []
    else
      var last := slots[|slots| - 1];
      Present(slots[..|slots| - 1]) + (if last.Some? then [last.value] else [])
  }

  /** The pointees of the non-null pointers in the slots from `from` up to,
      not including, `to`. */
  function PresentIn<T>(slots: seq<Option<T>>, from: nat, to: nat): seq<T>
    requires from < to ==> to <= |slots|
  {
    if to <= from then [] else Present(slots[from..to])
  }

  /** The loadouts a `CVec` holds, given the slots of host memory. */
  function Loadouts<T>(slots: seq<Option<T>>, v: CVec): seq<T>
    requires v.items == 0 || v.itemsEnd == 0 || v.itemsEnd <= |slots|
  {
    if v.items == 0 || v.itemsEnd == 0 then [] else PresentIn(slots, v.items, v.itemsEnd)
  }

  /** The `loadouts_vec` loop of `Plane::serialize`: walks `current` from
      `items` up to `items_end` and keeps the pointee of every non-null slot. */
  method LoadoutsVec<T>(slots: seq<Option<T>>, v: CVec) returns (result: seq<T>)
    requires v.items == 0 || v.itemsEnd == 0 || v.itemsEnd <= |slots|
    ensures result == Loadouts(slots, v)
  {
    if v.items == 0 || v.itemsEnd == 0 {
      return [];
    }
    result := [];
    var current := v.items;
    while current < v.itemsEnd
      invariant v.items <= current
      invariant v.items < current ==> current <= v.itemsEnd
      invariant result == PresentIn(slots, v.items, current)
      decreases v.itemsEnd - current
    {
      if slots[current].Some? {
        result := result + [slots[current].value];
      }
      assert slots[v.items..current + 1][..current - v.items] == slots[v.items..current];
      current := current + 1;
    }
  }

  /** The number of non-null pointers among `slots`. */
  function NonNull<T>(slots: seq<Option<T>>): nat
  {
    if slots == [] then 0 else (if slots[0].Some? then 1 else 0) + NonNull(slots[1..])
  }

  /** The slots are visited in order: the loadouts of consecutive ranges are
      concatenated. */
  lemma {:induction false} PresentAppend<T>(a: seq<Option<T>>, b: seq<Option<T>>)
    ensures Present(a + b) == Present(a) + Present(b)
    decreases |b|
  {
    if b == [] {
      assert a + b == a;
    } else {
      var c := a + b;
      assert c[..|c| - 1] == a + b[..|b| - 1];
      assert c[|c| - 1] == b[|b| - 1];
      PresentAppend(a, b[..|b| - 1]);
    }
  }

  /** One loadout per non-null slot: at most as many as there are slots. */
  lemma {:induction false} PresentLength<T>(slots: seq<Option<T>>)
    ensures |Present(slots)| == NonNull(slots)
  {
    if slots != [] {
      PresentLength(slots[1..]);
      PresentAppend([slots[0]], slots[1..]);
      assert [slots[0]] + slots[1..] == slots;
      assert Present([slots[0]]) == (if slots[0].Some? then [slots[0].value] else []) by {
        assert [slots[0]][..0] == [];
      }
    }
  }

  /** A loadout is in the list exactly when some slot points at it. */
  lemma {:induction false} PresentKeepsPointees<T>(slots: seq<Option<T>>, t: T)
    ensures t in Present(slots) <==> Some(t) in slots
  {
    if slots != [] {
      var init := slots[..|slots| - 1];
      PresentKeepsPointees(init, t);
      assert slots == init + [slots[|slots| - 1]];
    }
  }

  /** A null `items` or `items_end`, or an empty range, gives no loadouts;
      otherwise one per non-null slot of the range, at most `items_end - items`. */
  lemma LoadoutsCount<T>(slots: seq<Option<T>>, v: CVec)
    requires v.items == 0 || v.itemsEnd == 0 || v.itemsEnd <= |slots|
    ensures (v.items == 0 || v.itemsEnd == 0 || v.itemsEnd <= v.items) ==> Loadouts(slots, v) == []
    ensures v.items != 0 && v.itemsEnd != 0 && v.items < v.itemsEnd ==>
      |Loadouts(slots, v)| == NonNull(slots[v.items..v.itemsEnd]) <= v.itemsEnd - v.items
  {
    if v.items != 0 && v.itemsEnd != 0 && v.items < v.itemsEnd {
      PresentLength(slots[v.items..v.itemsEnd]);
    }
  }

  /** A value `Plane::serialize` hands to the serializer. */
  datatype Field<T> = Padding(bytes: seq<byte>) | LoadoutList(loadouts: seq<T>)

  /** `Plane::serialize`: a struct named "Plane" with two fields, `_padding`
      then `loadouts`. */
  method Serialize<T>(slots: seq<Option<T>>, plane: Plane) returns (name: string, fields: seq<(string, Field<T>)>)
    requires plane.loadouts.items == 0 || plane.loadouts.itemsEnd == 0 || plane.loadouts.itemsEnd <= |slots|
    ensures name == "Plane"
    ensures |fields| == 2
    ensures fields[0] == ("_padding", Padding(plane.padding))
    ensures fields[1] == ("loadouts", LoadoutList(Loadouts(slots, plane.loadouts)))
  {
    name := "Plane";
    fields := [("_padding", Padding(plane.padding))];
    var loadouts := LoadoutsVec(slots, plane.loadouts);
    fields := fields + [("loadouts", LoadoutList(loadouts))];
  }
}
