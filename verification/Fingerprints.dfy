/** `fingerprint_device` (host/vpn-portal/app.py): which client an IKE proposal suggests. */
module Fingerprints {
  /** Confidence in percent; a fingerprint that names a client has the source "inferred". */
  datatype Device = Unknown | Inferred(client: string, percent: nat)

  datatype Entry = Entry(needle: string, client: string, percent: nat)

  const FINGERPRINTS: seq<Entry> := [
    Entry("AES_CBC-256/HMAC_SHA2_256_128/PRF_HMAC_SHA2_256/MODP_2048", "iOS/macOS", 85),
    Entry("AES_CBC-128/HMAC_SHA1_96/PRF_HMAC_SHA1/MODP_1024", "iOS/macOS (legacy)", 70),
    Entry("AES_GCM_16-256/PRF_HMAC_SHA2_384/MODP_2048", "iOS/macOS (modern)", 80),
    Entry("AES_GCM_16-256/HMAC_SHA2_384_192/PRF_HMAC_SHA2_384/MODP_2048", "Windows 10/11", 90),
    Entry("AES_GCM_16-128/HMAC_SHA2_256_128/PRF_HMAC_SHA2_256/MODP_2048", "Windows 10/11", 85),
    Entry("AES_CBC-256/HMAC_SHA1_96/PRF_HMAC_SHA1/MODP_2048", "Windows (legacy)", 60),
    Entry("AES_CBC-256/HMAC_SHA2_256_128/PRF_HMAC_SHA2_256/ECP_256", "strongSwan Android", 90),
    Entry("AES_GCM_16-256/PRF_HMAC_SHA2_256/ECP_256", "strongSwan Android", 85),
    Entry("AES_CBC-128/HMAC_SHA2_256_128/PRF_HMAC_SHA2_256/MODP_2048", "strongSwan desktop", 75),
    Entry("AES_CBC-256/HMAC_SHA2_256_128/PRF_HMAC_SHA2_256/MODP_1536", "NetworkManager", 70)]

  predicate Occurs(needle: string, s: string) {
    exists i :: 0 <= i <= |s| && needle <= s[i..]
  }

  function FirstOf(algo: string, table: seq<Entry>): Device {
    if table == [] then Unknown
    else if Occurs(table[0].needle, algo) then Inferred(table[0].client, table[0].percent)
    else FirstOf(algo, table[1..])
  }

  function DeviceOf(algo: string): Device {
    if algo == "" then Unknown else FirstOf(algo, FINGERPRINTS)
  }

  /** The loop over the table. */
  method Fingerprint(algo: string) returns (device: Device)
    ensures device == DeviceOf(algo)
  {
    if algo == "" {
      return Unknown;
    }
    var table := FINGERPRINTS;
    hide FINGERPRINTS;
    for k := 0 to |table|
      invariant FirstOf(algo, table[k..]) == FirstOf(algo, table)
    {
      if Occurs(table[k].needle, algo) {
        return Inferred(table[k].client, table[k].percent);
      }
      assert table[k..][1..] == table[k + 1..];
    }
    return Unknown;
  }

  /** The earliest entry whose needle occurs decides, and nothing is inferred exactly when none occurs. */
  lemma {:induction false} EarliestDecides(algo: string, table: seq<Entry>) returns (k: nat)
    ensures k <= |table| && forall j :: 0 <= j < k ==> !Occurs(table[j].needle, algo)
    ensures k < |table| ==> Occurs(table[k].needle, algo) && FirstOf(algo, table) == Inferred(table[k].client, table[k].percent)
    ensures k == |table| <==> FirstOf(algo, table).Unknown?
    decreases |table|
  {
    hide Occurs;
    if table == [] {
      k := 0;
    } else if Occurs(table[0].needle, algo) {
      k := 0;
    } else {
      k := EarliestDecides(algo, table[1..]);
      k := k + 1;
      forall j | 0 <= j < k ensures !Occurs(table[j].needle, algo) {
        assert j > 0 ==> table[j] == table[1..][j - 1];
      }
    }
  }

  /** A needle occurs in a proposal exactly when the proposal is something, the needle and something. */
  lemma OccursInside(needle: string, s: string)
    ensures Occurs(needle, s) <==> exists before: string, after: string :: s == before + needle + after
  {
    if Occurs(needle, s) {
      var i :| 0 <= i <= |s| && needle <= s[i..];
      assert s == s[..i] + needle + s[i + |needle|..];
    }
    forall before: string, after: string | s == before + needle + after ensures Occurs(needle, s) {
      assert s[|before|..] == needle + after;
    }
  }

  /** The proposal of Apple's own clients, and no proposal at all. */
  lemma AppleProposal()
    ensures DeviceOf("AES_CBC-256/HMAC_SHA2_256_128/PRF_HMAC_SHA2_256/MODP_2048") == Inferred("iOS/macOS", 85)
    ensures DeviceOf("") == Unknown
  {
    hide Occurs;
    var algo := "AES_CBC-256/HMAC_SHA2_256_128/PRF_HMAC_SHA2_256/MODP_2048";
    assert FINGERPRINTS[0] == Entry(algo, "iOS/macOS", 85);
    WholeOccurs(algo);
    FirstEntry(algo, FINGERPRINTS);
  }

  lemma WholeOccurs(s: string)
    ensures Occurs(s, s)
  {
    assert s[0..] == s;
  }

  lemma FirstEntry(algo: string, table: seq<Entry>)
    requires table != [] && Occurs(table[0].needle, algo)
    ensures FirstOf(algo, table) == Inferred(table[0].client, table[0].percent)
  {
  }
}
