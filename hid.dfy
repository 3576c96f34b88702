/**
 * The records that hidapi's enumeration yields, reduced to the fields the
 * service and the settings window read, and the vendor/product filter that
 * `hid.enumerate(vendor_id, product_id)` applies.
 */
module Hid {

  /** One entry of `hid.enumerate()`: the dictionary keys the code reads. */
  datatype HidDevice = HidDevice(
    path: string,
    vendorId: nat,
    productId: nat,
    interfaceNumber: int,
    usagePage: nat,
    usage: nat,
    manufacturer: string,
    product: string)

  /** The identity the settings window de-duplicates on and the service looks for. */
  function Key(d: HidDevice): (k: (nat, nat)) {
    (d.vendorId, d.productId)
  }

  /** hidapi's enumeration filter: an identifier of 0 matches any device. */
  predicate MatchesIds(d: HidDevice, vendorId: nat, productId: nat) {
    (vendorId == 0 || d.vendorId == vendorId) && (productId == 0 || d.productId == productId)
  }

  /** `hid.enumerate(vendorId, productId)` over the host's device list `all`, in its order. */
  function Enumerate(all: seq<HidDevice>, vendorId: nat, productId: nat): (r: seq<HidDevice>)
    ensures |r| <= |all|
    ensures forall d :: d in r <==> d in all && MatchesIds(d, vendorId, productId)
  {
    if all == [] then []
    else
      var rest := Enumerate(all[..|all| - 1], vendorId, productId);
      var d := all[|all| - 1];
      assert forall e :: e in all <==> e in all[..|all| - 1] || e == d;
      if MatchesIds(d, vendorId, productId) then rest + [d] else rest
  }

  /** Enumeration keeps the host's order: a device appended to the host's list comes last, if it matches. */
  lemma EnumerateAppend(all: seq<HidDevice>, d: HidDevice, vendorId: nat, productId: nat)
    ensures Enumerate(all + [d], vendorId, productId)
            == Enumerate(all, vendorId, productId) + if MatchesIds(d, vendorId, productId) then [d] else []
  {
    assert (all + [d])[..|all|] == all;
  }
}
