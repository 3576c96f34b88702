/**
 * The service's start-up read of the configured keyboard identity
 * (`load_ids`). Reading and decoding the JSON file is outside the model;
 * its decoded object is the input.
 */
module Identity {
  import opened Wrappers
  import Hex

  /** Why start-up fails: a missing key (KeyError) or text `int(..., 16)` rejects (ValueError). */
  datatype ConfigError = MissingKey(key: string) | BadHex(key: string)

  /** `int(data[key], 16)`. */
  function ReadId(data: map<string, string>, key: string): (r: Result<nat, ConfigError>)
    ensures r.Success? <==> key in data && Hex.ParseHex(data[key]).Some?
    ensures r.Success? ==> Hex.ParseHex(data[key]) == Some(r.value)
    ensures key !in data ==> r == Failure(MissingKey(key))
    ensures key in data && Hex.ParseHex(data[key]).None? ==> r == Failure(BadHex(key))
  {
    if key !in data then Failure(MissingKey(key))
    else match Hex.ParseHex(data[key])
      case Some(v) => Success(v)
      case None => Failure(BadHex(key))
  }

  /** `load_ids`: the vendor identifier is read first, then the product identifier. */
  function LoadIds(data: map<string, string>): (r: Result<(nat, nat), ConfigError>)
    ensures r.Success? <==> ReadId(data, "VENDOR_ID").Success? && ReadId(data, "PRODUCT_ID").Success?
    ensures r.Success? ==> r.value == (ReadId(data, "VENDOR_ID").value, ReadId(data, "PRODUCT_ID").value)
    ensures ReadId(data, "VENDOR_ID").Failure? ==> r == Failure(ReadId(data, "VENDOR_ID").error)
    ensures ReadId(data, "VENDOR_ID").Success? && ReadId(data, "PRODUCT_ID").Failure?
            ==> r == Failure(ReadId(data, "PRODUCT_ID").error)
  {
    match ReadId(data, "VENDOR_ID")
    case Failure(e) => Failure(e)
    case Success(vendorId) =>
      match ReadId(data, "PRODUCT_ID")
      case Failure(e) => Failure(e)
      case Success(productId) => Success((vendorId, productId))
  }

  /** A configuration naming vendor 0x046D and product 0xC52B loads exactly those identifiers. */
  lemma LoadSampleConfig()
    ensures LoadIds(map["VENDOR_ID" := "0x046D", "PRODUCT_ID" := "0xC52B"]) == Success((0x046D, 0xC52B))
  {
    var data := map["VENDOR_ID" := "0x046D", "PRODUCT_ID" := "0xC52B"];
    assert data["VENDOR_ID"] == "0x046D" && data["PRODUCT_ID"] == "0xC52B";
    SampleVendor();
    SampleProduct();
  }

  lemma SampleVendor()
    ensures Hex.ParseHex("0x046D") == Some(0x046D)
  {
    assert "046D"[..3] == "046" && "046"[..2] == "04" && "04"[..1] == "0" && "0"[..0] == "";
    assert Hex.HexValue("0") == 0;
    assert Hex.HexValue("04") == 4;
    assert Hex.HexValue("046") == 0x46;
    assert Hex.HexValue("046D") == 0x046D;
    assert "0x046D" == "0x" + "046D";
    Hex.PrefixedValue("046D");
  }

  lemma SampleProduct()
    ensures Hex.ParseHex("0xC52B") == Some(0xC52B)
  {
    assert "C52B"[..3] == "C52" && "C52"[..2] == "C5" && "C5"[..1] == "C" && "C"[..0] == "";
    assert Hex.HexValue("C") == 0xC;
    assert Hex.HexValue("C5") == 0xC5;
    assert Hex.HexValue("C52") == 0xC52;
    assert Hex.HexValue("C52B") == 0xC52B;
    assert "0xC52B" == "0x" + "C52B";
    Hex.PrefixedValue("C52B");
  }
}
