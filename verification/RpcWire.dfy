/** The wire address of an RPC binder object and its conversion to the raw 64-bit key. */
module RpcWire {
  import opened Basics

  /** An address as sent on the wire: two 32-bit words, option bits first. */
  datatype WireAddress = WireAddress(options: nat, address: nat)

  ghost predicate IsWord(x: nat) { x < TWO32 }

  ghost predicate WellSized(a: WireAddress) { IsWord(a.options) && IsWord(a.address) }

  /** Reinterpretation of the two words as one little-endian 64-bit number. */
  function ToRaw(a: WireAddress): (raw: nat)
  {
    a.options + a.address * TWO32
  }

  function FromRaw(raw: nat): (a: WireAddress)
  {
    WireAddress(raw % TWO32, raw / TWO32)
  }

  /** Raw keys and wire addresses are in bijection, so a map may be keyed by either. */
  lemma RawRoundTrip(a: WireAddress, raw: nat)
    requires WellSized(a)
    requires raw < TWO32 * TWO32
    ensures FromRaw(ToRaw(a)) == a && ToRaw(a) < TWO32 * TWO32
    ensures ToRaw(FromRaw(raw)) == raw && WellSized(FromRaw(raw))
    ensures ToRaw(a) == raw <==> a == FromRaw(raw)
    ensures ToRaw(a) == 0 <==> a == WireAddress(0, 0)
    ensures ToRaw(WireAddress(3, 5)) == 0x5_0000_0003
  {
    assert ToRaw(a) / TWO32 == a.address && ToRaw(a) % TWO32 == a.options;
  }

  // Option bits: CREATED is bit 0, FOR_SERVER is bit 1, every other bit is unknown.

  predicate HasUnknownOption(a: WireAddress) { a.options >= 4 }

  /** `options & FOR_SERVER`, which is 0 or 2 and never 1. */
  function ForServerMask(a: WireAddress): nat { if (a.options / 2) % 2 == 1 then 2 else 0 }

  /** The address with CREATED set, and FOR_SERVER set exactly on a server's own objects. */
  function MakeAddress(forServer: bool, id: nat): WireAddress
  {
    WireAddress(if forServer then 3 else 1, id)
  }

  /** Was this address made by `MakeAddress` on the given kind of endpoint? */
  predicate CreatedBy(forServer: bool, a: WireAddress)
  {
    a.options == (if forServer then 3 else 1) && a.address < TWO32
  }
}
