/** `Loadout::new` of src/plane.rs: the record the mod hands to the host's
    plane-registering routine, with a heap copy of the name as a C string. */
module Plane {
  import opened Bytes

  /** `#[repr(C)] struct Loadout`. `name` is the buffer `name` points at. */
  datatype Loadout = Loadout(name: seq<byte>, padding: seq<byte>, length: u64, maxLength: u64,
                             amount: u32, padding2: seq<byte>)

  /** Reads a C string: the bytes before the first zero byte (all of them if
      there is none). */
  function ReadCString(buf: seq<byte>): (s: seq<byte>)
    ensures |s| <= |buf| && s == buf[..|s|] && 0 !in s
    ensures |s| < |buf| ==> buf[|s|] == 0
  {
    if buf == [] || buf[0] == 0 then [] else [buf[0]] + ReadCString(buf[1..])
  }

  /** `Loadout::new`: copies the bytes of `name`, appends the terminator and
      zeroes every other field except `amount`. */
  method NewLoadout(name: seq<byte>, amount: u32) returns (l: Loadout)
    ensures |l.name| == |name| + 1
    ensures l.name[..|name|] == name && l.name[|name|] == 0
    ensures l.length == 0 && l.maxLength == 0 && l.amount == amount
    ensures l.padding == seq(8, _ => 0) && l.padding2 == seq(4, _ => 0)
  {
    var nameBytes := name;
    nameBytes := nameBytes + [0];
    l := Loadout(nameBytes, seq(8, _ => 0), 0, 0, amount, seq(4, _ => 0));
  }

  /** The host reads back the name that was passed in, provided it has no zero
      byte of its own; a name with one is cut short at it. */
  lemma {:induction false} NameRoundTrip(name: seq<byte>, buf: seq<byte>)
    requires |buf| == |name| + 1 && buf[..|name|] == name && buf[|name|] == 0
    ensures 0 !in name ==> ReadCString(buf) == name
    ensures forall i :: 0 <= i < |name| && name[i] == 0 ==> |ReadCString(buf)| <= i
  {
    if name != [] {
      assert buf[0] == name[0];
      NameRoundTrip(name[1..], buf[1..]);
    }
  }
}
