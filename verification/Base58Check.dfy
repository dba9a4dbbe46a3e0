/** Base58 with a four-byte checksum, and version-prefixed data in that form. */
module Base58Check {
  import opened Common
  import opened Base58Model
  import Base58

  function EncodeCheck(bytes: seq<nat>, h: seq<nat> -> seq<nat>): (r: string)
    requires AreDigits(bytes, 256) && IsHash(h)
  {
    Encode(bytes + h(bytes)[..4])
  }

  function DecodeCheck(s: string, h: seq<nat> -> seq<nat>): (r: Option<seq<nat>>)
    requires IsHash(h)
  {
    var d := Decode(s);
    if d.None? || |d.value| < 4 then None
    else
      var n := |d.value| - 4;
      if h(d.value[..n])[..4] != d.value[n..] then None else Some(d.value[..n])
  }

  lemma CheckRoundTrip(bytes: seq<nat>, h: seq<nat> -> seq<nat>)
    requires AreDigits(bytes, 256) && IsHash(h)
    ensures DecodeCheck(EncodeCheck(bytes, h), h) == Some(bytes)
  {
    hide Encode; hide Decode;
    var all := bytes + h(bytes)[..4];
    DecodeEncode(all);
    assert all[..|bytes|] == bytes && all[|bytes|..] == h(bytes)[..4];
  }

  /** Apart from white space around it, only the encoding itself is accepted. */
  lemma CheckOnlyEncodings(s: string, h: seq<nat> -> seq<nat>)
    requires IsHash(h) && Spaceless(s) && DecodeCheck(s, h).Some?
    ensures AreDigits(DecodeCheck(s, h).value, 256) && s == EncodeCheck(DecodeCheck(s, h).value, h)
  {
    hide Encode;
    DecodeSpaceless(s);
    EncodeDecode(s);
    var all := Decode(s).value;
    var n := |all| - 4;
    assert all == all[..n] + all[n..];
  }

  method EncodeBase58Check(bytes: seq<nat>, h: seq<nat> -> seq<nat>) returns (s: string)
    requires AreDigits(bytes, 256) && IsHash(h)
    ensures s == EncodeCheck(bytes, h)
  {
    s := Base58.EncodeBase58(bytes + h(bytes)[..4]);
  }

  method DecodeBase58Check(psz: string, h: seq<nat> -> seq<nat>) returns (ok: bool, bytes: seq<nat>)
    requires IsHash(h)
    ensures DecodeCheck(psz, h) == (if ok then Some(bytes) else None) && (!ok ==> bytes == [])
  {
    hide Decode;
    ok, bytes := Base58.DecodeBase58(psz);
    if !ok || |bytes| < 4 {
      return false, [];
    }
    var n := |bytes| - 4;
    if h(bytes[..n])[..4] != bytes[n..] {
      return false, [];
    }
    return true, bytes[..n];
  }

  class Base58Data {
    var vchVersion: seq<nat>
    var vchData: seq<nat>

    constructor ()
      ensures vchVersion == [] && vchData == []
    {
      vchVersion, vchData := [], [];
    }

    /** Afterwards the object holds what was read, split after the version, or nothing at all. */
    method SetString(psz: string, nVersionBytes: nat, h: seq<nat> -> seq<nat>) returns (ok: bool)
      requires IsHash(h)
      modifies this
      ensures ok <==> DecodeCheck(psz, h).Some? && nVersionBytes <= |DecodeCheck(psz, h).value|
      ensures ok ==> vchVersion + vchData == DecodeCheck(psz, h).value && |vchVersion| == nVersionBytes
      ensures !ok ==> vchVersion == [] && vchData == []
    {
      var rc58, vchTemp := DecodeBase58Check(psz, h);
      if !rc58 || |vchTemp| < nVersionBytes {
        vchData, vchVersion := [], [];
        return false;
      }
      vchVersion, vchData := vchTemp[..nVersionBytes], vchTemp[nVersionBytes..];
      return true;
    }

    /** The string from which SetString restores this object. */
    method ToString(h: seq<nat> -> seq<nat>) returns (s: string)
      requires IsHash(h) && AreDigits(vchVersion, 256) && AreDigits(vchData, 256)
      ensures DecodeCheck(s, h) == Some(vchVersion + vchData) && s == EncodeCheck(vchVersion + vchData, h)
    {
      s := EncodeBase58Check(vchVersion + vchData, h);
      CheckRoundTrip(vchVersion + vchData, h);
    }
  }

  /** An object written out and read back with as many version bytes is the same object. */
  lemma DataRoundTrip(version: seq<nat>, data: seq<nat>, h: seq<nat> -> seq<nat>, v: seq<nat>, d: seq<nat>)
    requires IsHash(h) && AreDigits(version, 256) && AreDigits(data, 256)
    requires DecodeCheck(EncodeCheck(version + data, h), h) == Some(v + d) && |v| == |version|
    ensures v == version && d == data
  {
    CheckRoundTrip(version + data, h);
    assert (v + d)[..|v|] == v && (version + data)[..|v|] == version;
    assert (v + d)[|v|..] == d && (version + data)[|v|..] == data;
  }
}
