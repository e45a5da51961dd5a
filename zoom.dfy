/** The zoom hooks of src/zoom.rs: two patches into the host's camera code,
    the globals they are configured with, and the two functions the stubs
    call. Host memory is the array the patcher writes, indexed by absolute
    address; zoom levels are `f32` values the model never computes with, so
    they are a type parameter `F`. */
module Zoom {
  import opened Bytes
  import opened Wrappers
  import Patchy

  /** The host builds the addresses are for. Without a build feature the
      source uses the 1.163 addresses. */
  datatype Build = V1_151 | V1_163

  function MinZoomAddr(b: Build): nat { if b == V1_151 then 0x1_4394_2538 else 0x1_43a1_19a4 }
  function MaxZoomAddr(b: Build): nat { if b == V1_151 then 0x1_4039_1160 else 0x1_403c_11d0 }
  function ZoomLevelAddr(b: Build): nat { if b == V1_151 then 0x1_4039_115c else 0x1_403c_11cc }
  function IsInArcadeAddr(b: Build): nat { if b == V1_151 then 0x1_47ee_d995 else 0x1_47fc_6fb7 }

  /** The site `patch_zoom` hooks and how many bytes it overwrites there. */
  function ZoomSite(b: Build): usize { if b == V1_151 then 0x1_401a_df72 else 0x1_402c_31c9 }
  function ZoomSiteSize(b: Build): nat { if b == V1_151 then 20 else 14 }

  /** The site `patch_levels` hooks; it overwrites 5 bytes there. */
  function LevelsSite(b: Build): usize { if b == V1_151 then 0x1_4024_9371 else 0x1_4026_b03f }
  const LEVELS_SITE_SIZE: nat := 5

  /** The highest address any of the hooks touches, plus one. */
  function HostEnd(b: Build): nat { IsInArcadeAddr(b) + 1 }

  /** The `u32` a hook reads at `addr`. */
  function ReadU32(mem: seq<byte>, addr: nat): (v: u32)
    requires addr + 4 <= |mem|
  {
    assert Pow256(4) == 0x1_0000_0000 by {
      assert Pow256(2) == 0x1_0000;
    }
    FromLittleEndian(mem[addr..addr + 4])
  }

  datatype ZoomError = IndexOutOfBounds

  /** The logic of `calc_zoom_value` as written, given the arcade flag, the
      host's zoom level, the configured levels, what the host's own routine
      returns and the constant `1.0`. The guard compares with `>` against the
      length truncated to 32 bits; indexing at the length panics. */
  function CalcZoom<F>(arcade: bool, zoom: u32, levels: seq<F>, original: F, one: F): (r: Result<F, ZoomError>)
    ensures r.Err? ==> arcade && zoom == |levels|
    ensures r.Ok? && arcade ==> r.value == one || (zoom < |levels| && r.value == levels[zoom])
  {
    if !arcade then Ok(original)
    else if zoom > |levels| % 0x1_0000_0000 then Ok(one)
    else if zoom < |levels| then Ok(levels[zoom])
    else Err(IndexOutOfBounds)
  }

  /** `calc_zoom_value` with the evidently intended guard, `>=` against the
      full length: it never panics. */
  function CalcZoomFixed<F>(arcade: bool, zoom: u32, levels: seq<F>, original: F, one: F): (r: F)
    ensures !arcade ==> r == original
    ensures arcade && zoom < |levels| ==> r == levels[zoom]
    ensures arcade && |levels| <= zoom ==> r == one
  {
    if !arcade then original
    else if zoom >= |levels| then one
    else levels[zoom]
  }

  /** Outside arcade mode the host's value is passed through; in arcade mode a
      level past the end gives `1.0` and one inside the table gives that
      entry. The only failure is a level equal to the number of levels. */
  lemma CalcZoomCases<F>(arcade: bool, zoom: u32, levels: seq<F>, original: F, one: F)
    ensures !arcade ==> CalcZoom(arcade, zoom, levels, original, one) == Ok(original)
    ensures arcade && zoom > |levels| ==> CalcZoom(arcade, zoom, levels, original, one) == Ok(one)
    ensures arcade && zoom < |levels| < 0x1_0000_0000 ==> CalcZoom(arcade, zoom, levels, original, one) == Ok(levels[zoom])
    ensures CalcZoom(arcade, zoom, levels, original, one).Err? <==> arcade && zoom == |levels|
  {
  }

  /** The off-by-one: with the arcade flag set and the zoom level equal to the
      number of configured levels, the guard lets the index through and it is
      out of bounds. */
  lemma CalcZoomOffByOne<F>(levels: seq<F>, original: F, one: F)
    requires |levels| < 0x1_0000_0000
    ensures CalcZoom(true, |levels|, levels, original, one) == Err(IndexOutOfBounds)
  {
  }

  /** Wherever the code as written returns a value, the corrected version
      returns the same one, as long as the table has fewer than 2^32 levels. */
  lemma CalcZoomFixedAgrees<F>(arcade: bool, zoom: u32, levels: seq<F>, original: F, one: F)
    requires |levels| < 0x1_0000_0000
    ensures CalcZoom(arcade, zoom, levels, original, one).Ok? ==>
      CalcZoom(arcade, zoom, levels, original, one).value == CalcZoomFixed(arcade, zoom, levels, original, one)
    ensures CalcZoom(arcade, zoom, levels, original, one).Err? ==>
      CalcZoomFixed(arcade, zoom, levels, original, one) == one
  {
  }

  /** After `set_zoom_level` the two bounds read back as the globals and every
      other byte of memory is as before. */
  lemma SetZoomLevelWrites(mem: seq<byte>, b: Build, max: u32, min: u32)
    requires HostEnd(b) <= |mem|
    ensures var after := Splice(Splice(mem, MaxZoomAddr(b), U32Bytes(max)), MinZoomAddr(b), U32Bytes(min));
      && ReadU32(after, MaxZoomAddr(b)) == max
      && ReadU32(after, MinZoomAddr(b)) == min
      && |after| == |mem|
      && (forall i :: 0 <= i < |mem| ==>
            (MaxZoomAddr(b) <= i < MaxZoomAddr(b) + 4) || (MinZoomAddr(b) <= i < MinZoomAddr(b) + 4) || after[i] == mem[i])
  {
    var first := Splice(mem, MaxZoomAddr(b), U32Bytes(max));
    var after := Splice(first, MinZoomAddr(b), U32Bytes(min));
    SpliceContents(mem, MaxZoomAddr(b), U32Bytes(max));
    SpliceContents(first, MinZoomAddr(b), U32Bytes(min));
    assert after[MaxZoomAddr(b)..MaxZoomAddr(b) + 4] == first[MaxZoomAddr(b)..MaxZoomAddr(b) + 4];
    U32RoundTrip(max);
    U32RoundTrip(min);
  }

  /** The `static mut` globals of src/zoom.rs. */
  class Globals<F> {
    var minZoom: u32
    var maxZoom: u32
    var levels: seq<F>

    /** The initial values: both bounds 3, no levels. */
    constructor ()
      ensures minZoom == 3 && maxZoom == 3 && levels == []
    {
      minZoom := 3;
      maxZoom := 3;
      levels := [];
    }

    /** `patch_zoom`: stores the bounds, then hooks `set_zoom_level`, found at
        `setZoomLevel`, over 14 bytes (20 on 1.151), replaying nothing and
        saving both RAX and XMM0. */
    method PatchZoom(mem: array<byte>, b: Build, min: u32, max: u32, setZoomLevel: u64, isMapped: int -> bool)
      returns (r: Result<Patchy.Patch, Patchy.PatchError>)
      requires HostEnd(b) <= mem.Length
      modifies this, mem
      ensures maxZoom == max && minZoom == min && levels == old(levels)
      ensures mem[..] == Patchy.PatchCallOutcome(old(mem[..]), ZoomSite(b), setZoomLevel, ZoomSiteSize(b),
                                                 false, Patchy.None, isMapped).mem
      ensures Patchy.Delivers(r, Patchy.PatchCallOutcome(old(mem[..]), ZoomSite(b), setZoomLevel, ZoomSiteSize(b),
                                                         false, Patchy.None, isMapped).result,
                              ZoomSiteSize(b), old(mem[ZoomSite(b)..ZoomSite(b) + ZoomSiteSize(b)]))
    {
      maxZoom := max;
      minZoom := min;
      r := Patchy.PatchCall(mem, ZoomSite(b), setZoomLevel, ZoomSiteSize(b), false, Patchy.None, isMapped);
    }

    /** `patch_levels`: stores the levels, then hooks `calc_zoom_value`, found
        at `calcZoomValue`, over 5 bytes, leaving XMM0 to carry its result. */
    method PatchLevels(mem: array<byte>, b: Build, zoomLevels: seq<F>, calcZoomValue: u64, isMapped: int -> bool)
      returns (r: Result<Patchy.Patch, Patchy.PatchError>)
      requires HostEnd(b) <= mem.Length
      modifies this, mem
      ensures levels == zoomLevels && minZoom == old(minZoom) && maxZoom == old(maxZoom)
      ensures mem[..] == Patchy.PatchCallOutcome(old(mem[..]), LevelsSite(b), calcZoomValue, LEVELS_SITE_SIZE,
                                                 false, Patchy.Xmm0, isMapped).mem
      ensures Patchy.Delivers(r, Patchy.PatchCallOutcome(old(mem[..]), LevelsSite(b), calcZoomValue, LEVELS_SITE_SIZE,
                                                         false, Patchy.Xmm0, isMapped).result,
                              LEVELS_SITE_SIZE, old(mem[LevelsSite(b)..LevelsSite(b) + LEVELS_SITE_SIZE]))
    {
      levels := zoomLevels;
      r := Patchy.PatchCall(mem, LevelsSite(b), calcZoomValue, LEVELS_SITE_SIZE, false, Patchy.Xmm0, isMapped);
    }

    /** `set_zoom_level`: writes the upper bound to the host, then the lower
        one. */
    method SetZoomLevel(mem: array<byte>, b: Build)
      requires HostEnd(b) <= mem.Length
      modifies mem
      ensures mem[..] == Splice(Splice(old(mem[..]), MaxZoomAddr(b), U32Bytes(maxZoom)),
                                       MinZoomAddr(b), U32Bytes(minZoom))
    {
      var max := maxZoom;
      var min := minZoom;
      Patchy.CopyBytes(mem, MaxZoomAddr(b), U32Bytes(max));
      Patchy.CopyBytes(mem, MinZoomAddr(b), U32Bytes(min));
    }

    /** `calc_zoom_value`: reads the arcade flag and the zoom level from the
        host and looks the level up; `original` is what the host's own routine
        would have returned and `one` is `1.0`. */
    function CalcZoomValue(mem: array<byte>, b: Build, original: F, one: F): (r: Result<F, ZoomError>)
      requires HostEnd(b) <= mem.Length
      reads this, mem
      ensures mem[IsInArcadeAddr(b)] == 0 ==> r == Ok(original)
      ensures r.Err? <==> mem[IsInArcadeAddr(b)] != 0 && ReadU32(mem[..], ZoomLevelAddr(b)) == |levels|
    {
      CalcZoomCases(mem[IsInArcadeAddr(b)] != 0, ReadU32(mem[..], ZoomLevelAddr(b)), levels, original, one);
      CalcZoom(mem[IsInArcadeAddr(b)] != 0, ReadU32(mem[..], ZoomLevelAddr(b)), levels, original, one)
    }
  }
}
