/**
 * The web-update record, its version order, its signable form, the manifest
 * container and the compiled-in trust policy (WebUpdates.hpp).
 */
module WebUpdates {

  /** An unsigned 8-bit integer, as `uint8_t` in the source. */
  newtype uint8 = x: int | 0 <= x < 256

  type Bytes = seq<uint8>

  /** A compact recoverable secp256k1 signature, held as its raw bytes. */
  type Signature = Bytes

  /**
   * A blockchain address, identified by its base58 text after the address
   * prefix (the prefix is common to all addresses and does not take part in
   * comparisons between them).
   */
  type Address = string

  datatype Option<T> = None | Some(value: T)

  /** `WebUpdateManifest::UpdateDetails`. */
  datatype UpdateDetails = UpdateDetails(
    majorVersion: uint8,
    forkVersion: uint8,
    minorVersion: uint8,
    patchVersion: uint8,       // a character ordinal: 'a' is 97
    signatures: set<Signature>,
    releaseNotes: string,
    updatePackageUrl: string,
    timestamp: nat)            // fc::time_point_sec, seconds since the epoch

  /** A release line and patch letter of the running client or of an update. */
  datatype Version = Version(major: uint8, fork: uint8, minor: uint8, patch: uint8)

  const PatchA: uint8 := 97

  function VersionOf(u: UpdateDetails): Version {
    Version(u.majorVersion, u.forkVersion, u.minorVersion, u.patchVersion)
  }

  /** The default constructor: version 0.4.16, patch 'a', nothing else set. */
  function DefaultDetails(): (u: UpdateDetails)
    ensures VersionOf(u) == Version(0, 4, 16, PatchA)
    ensures u.signatures == {} && u.releaseNotes == [] && u.updatePackageUrl == []
    ensures u.timestamp == 0
  {
    UpdateDetails(0, 4, 16, 'a' as int as uint8, {}, "", "", 0)
  }

  /** `operator<`: a chain of field comparisons, major first. */
  predicate Less(a: UpdateDetails, b: UpdateDetails)
    ensures Less(a, b) ==> VersionOf(a) != VersionOf(b)
    ensures Less(a, b) ==> a.majorVersion <= b.majorVersion
  {
    if a.majorVersion != b.majorVersion then a.majorVersion < b.majorVersion
    else if a.forkVersion != b.forkVersion then a.forkVersion < b.forkVersion
    else if a.minorVersion != b.minorVersion then a.minorVersion < b.minorVersion
    else a.patchVersion < b.patchVersion
  }

  /** Lexicographic order on the version 4-tuple: an independent reference for `Less`. */
  predicate LexLess(v: Version, w: Version) {
    v.major < w.major
    || (v.major == w.major && v.fork < w.fork)
    || (v.major == w.major && v.fork == w.fork && v.minor < w.minor)
    || (v.major == w.major && v.fork == w.fork && v.minor == w.minor && v.patch < w.patch)
  }

  lemma LessIsLexicographic(a: UpdateDetails, b: UpdateDetails)
    ensures Less(a, b) <==> LexLess(VersionOf(a), VersionOf(b))
  {
  }

  /** Neither is less than the other: the records hold the same version. */
  predicate Equivalent(a: UpdateDetails, b: UpdateDetails) {
    !Less(a, b) && !Less(b, a)
  }

  lemma LessIrreflexive(a: UpdateDetails)
    ensures !Less(a, a)
  {
  }

  lemma LessTransitive(a: UpdateDetails, b: UpdateDetails, c: UpdateDetails)
    requires Less(a, b) && Less(b, c)
    ensures Less(a, c)
  {
  }

  lemma EquivalentIffSameVersion(a: UpdateDetails, b: UpdateDetails)
    ensures Equivalent(a, b) <==> VersionOf(a) == VersionOf(b)
  {
  }

  /** The order is total on versions: exactly one of less, equivalent, greater. */
  lemma LessTrichotomous(a: UpdateDetails, b: UpdateDetails)
    ensures Less(a, b) || Less(b, a) || VersionOf(a) == VersionOf(b)
    ensures !(Less(a, b) && Less(b, a))
  {
  }

  /** Only the four version fields take part in the order. */
  lemma LessIgnoresPayload(a: UpdateDetails, b: UpdateDetails, a': UpdateDetails, b': UpdateDetails)
    requires VersionOf(a) == VersionOf(a') && VersionOf(b) == VersionOf(b')
    ensures Less(a, b) <==> Less(a', b')
  {
  }

  /** The copy of a record that `signable_string` renders: signatures cleared. */
  function Unsigned(u: UpdateDetails): (c: UpdateDetails)
    ensures c.signatures == {}
    ensures VersionOf(c) == VersionOf(u) && c.releaseNotes == u.releaseNotes
    ensures c.updatePackageUrl == u.updatePackageUrl && c.timestamp == u.timestamp
  {
    u.(signatures := {})
  }

  /**
   * `signable_string`: the JSON text of the unsigned copy. The JSON renderer
   * belongs to a foreign library and is passed in.
   */
  function SignableString(toJson: UpdateDetails -> Bytes, u: UpdateDetails): Bytes {
    toJson(Unsigned(u))
  }

  /** Records that differ only in their signatures have the same signable string. */
  lemma SignableIgnoresSignatures(toJson: UpdateDetails -> Bytes, u: UpdateDetails, sigs: set<Signature>)
    ensures SignableString(toJson, u.(signatures := sigs)) == SignableString(toJson, u)
  {
  }

  // ---------------------------------------------------------------------
  // Trust policy (WebUpdates.hpp:14-20)

  const SignatureRequirement: uint8 := 2

  const SigningKeys: set<Address> := {
    "4ucXsqrD7uvPF4oaQGZtyapdbgZfGMrcP",
    "HmsVUBDcWxM1hR3VZ6UCeXFUdgy9u9XLx",
    "88fzLmtm2ahKdFQYhgmHWynXkoMKYmZmd",
    "Q3axJzb5S9ZNizH7hJoZFQQpeWmvq5Qtu"
  }

  lemma TrustPolicyConsistent()
    ensures |SigningKeys| == 4
    ensures SignatureRequirement as int <= |SigningKeys|
  {
    var k1, k2, k3, k4 := "4ucXsqrD7uvPF4oaQGZtyapdbgZfGMrcP", "HmsVUBDcWxM1hR3VZ6UCeXFUdgy9u9XLx",
                          "88fzLmtm2ahKdFQYhgmHWynXkoMKYmZmd", "Q3axJzb5S9ZNizH7hJoZFQQpeWmvq5Qtu";
    assert k1[0] == '4' && k2[0] == 'H' && k3[0] == '8' && k4[0] == 'Q';
    assert k1 != k2 && k1 != k3 && k1 != k4 && k2 != k3 && k2 != k4 && k3 != k4;
    assert |{k1}| == 1;
    assert |{k1, k2}| == 2;
    assert |{k1, k2, k3}| == 3;
    assert SigningKeys == {k1, k2, k3} + {k4};
  }

  // ---------------------------------------------------------------------
  // The manifest: `std::set<UpdateDetails>` under `Less`, held in order.

  predicate StrictlySorted(m: seq<UpdateDetails>) {
    forall i, j :: 0 <= i < j < |m| ==> Less(m[i], m[j])
  }

  /** A manifest holds at most one record per version tuple. */
  lemma SortedVersionsUnique(m: seq<UpdateDetails>, i: int, j: int)
    requires StrictlySorted(m)
    requires 0 <= i < |m| && 0 <= j < |m| && i != j
    ensures VersionOf(m[i]) != VersionOf(m[j])
  {
    if i < j { assert Less(m[i], m[j]); } else { assert Less(m[j], m[i]); }
  }

  /** In a manifest, a version tuple identifies its record. */
  lemma SameVersionSamePosition(m: seq<UpdateDetails>, i: int, j: int)
    requires StrictlySorted(m)
    requires 0 <= i < |m| && 0 <= j < |m|
    ensures VersionOf(m[i]) == VersionOf(m[j]) ==> i == j
  {
    if i < j { assert Less(m[i], m[j]); } else if j < i { assert Less(m[j], m[i]); }
  }

  predicate HasEquivalent(m: seq<UpdateDetails>, r: UpdateDetails) {
    exists i :: 0 <= i < |m| && VersionOf(m[i]) == VersionOf(r)
  }

  /**
   * `std::set::insert`: a record whose version is already present is dropped,
   * otherwise it goes to its place in the order.
   */
  function Insert(m: seq<UpdateDetails>, r: UpdateDetails): (s: seq<UpdateDetails>)
    ensures forall u :: u in s ==> u in m || u == r
    ensures r in s || HasEquivalent(m, r)
    ensures |m| <= |s| <= |m| + 1
    decreases |m|
  {
    if m == [] then [r]
    else if Less(r, m[0]) then [r] + m
    else if Less(m[0], r) then
      HasEquivalentTail(m, r);
      [m[0]] + Insert(m[1..], r)
    else m
  }

  /** A record below the head of a manifest is below all of it. */
  lemma BelowHead(m: seq<UpdateDetails>, r: UpdateDetails)
    requires StrictlySorted(m) && m != [] && Less(r, m[0])
    ensures forall k :: 0 <= k < |m| ==> Less(r, m[k])
    ensures !HasEquivalent(m, r)
  {
    forall k | 0 < k < |m| ensures Less(r, m[k]) {
      LessTransitive(r, m[0], m[k]);
    }
  }

  lemma HasEquivalentTail(m: seq<UpdateDetails>, r: UpdateDetails)
    requires m != [] && VersionOf(m[0]) != VersionOf(r)
    ensures HasEquivalent(m, r) <==> HasEquivalent(m[1..], r)
  {
    if HasEquivalent(m, r) {
      var i :| 0 <= i < |m| && VersionOf(m[i]) == VersionOf(r);
      assert VersionOf(m[1..][i - 1]) == VersionOf(r);
    }
    if HasEquivalent(m[1..], r) {
      var i :| 0 <= i < |m[1..]| && VersionOf(m[1..][i]) == VersionOf(r);
      assert VersionOf(m[i + 1]) == VersionOf(r);
    }
  }

  /** Insertion keeps the manifest ordered and adds exactly the new record, unless its version is taken. */
  lemma {:induction false} InsertCorrect(m: seq<UpdateDetails>, r: UpdateDetails)
    requires StrictlySorted(m)
    ensures StrictlySorted(Insert(m, r))
    ensures HasEquivalent(m, r) ==> Insert(m, r) == m
    ensures !HasEquivalent(m, r) ==> forall u :: u in Insert(m, r) <==> u in m || u == r
    decreases |m|
  {
    if m == [] {
    } else if Less(r, m[0]) {
      BelowHead(m, r);
    } else if Less(m[0], r) {
      var tail := m[1..];
      assert StrictlySorted(tail);
      InsertCorrect(tail, r);
      HasEquivalentTail(m, r);
      var t := Insert(tail, r);
      assert Insert(m, r) == [m[0]] + t;
      HeadBelowInsert(m, r);
      assert m == [m[0]] + tail;
    } else {
      assert VersionOf(m[0]) == VersionOf(r);
    }
  }

  /** The head of a manifest stays below everything inserted after it. */
  lemma HeadBelowInsert(m: seq<UpdateDetails>, r: UpdateDetails)
    requires StrictlySorted(m) && m != [] && Less(m[0], r)
    ensures forall k :: 0 <= k < |Insert(m[1..], r)| ==> Less(m[0], Insert(m[1..], r)[k])
  {
    var tail, t := m[1..], Insert(m[1..], r);
    forall k | 0 <= k < |t| ensures Less(m[0], t[k]) {
      assert t[k] in t;
      if t[k] != r {
        var j :| 0 <= j < |tail| && tail[j] == t[k];
        assert m[j + 1] == t[k];
      }
    }
  }

  /** The manifest that decoding builds from the document's `updates` array, inserting in order. */
  function FromList(rs: seq<UpdateDetails>): (m: seq<UpdateDetails>)
    ensures StrictlySorted(m)
    decreases |rs|
  {
    if rs == [] then []
    else
      var m := FromList(rs[..|rs| - 1]);
      InsertCorrect(m, rs[|rs| - 1]);
      Insert(m, rs[|rs| - 1])
  }

  /** Every record of the manifest came from the document. */
  lemma {:induction false} FromListFromDocument(rs: seq<UpdateDetails>)
    ensures forall u :: u in FromList(rs) ==> u in rs
    decreases |rs|
  {
    if rs != [] {
      var init, last := rs[..|rs| - 1], rs[|rs| - 1];
      FromListFromDocument(init);
      InsertCorrect(FromList(init), last);
      assert rs == init + [last];
    }
  }

  /** Every version in the document is represented, by the FIRST record carrying it. */
  lemma {:induction false} FromListFirstWins(rs: seq<UpdateDetails>, i: int)
    requires 0 <= i < |rs|
    requires forall j :: 0 <= j < i ==> VersionOf(rs[j]) != VersionOf(rs[i])
    ensures rs[i] in FromList(rs)
    decreases |rs|
  {
    var init, last := rs[..|rs| - 1], rs[|rs| - 1];
    var m := FromList(init);
    assert FromList(rs) == Insert(m, last);
    InsertCorrect(m, last);
    if i < |rs| - 1 {
      assert forall j :: 0 <= j < i ==> init[j] == rs[j];
      FromListFirstWins(init, i);
      assert rs[i] in m;
    } else {
      FreshVersionNotInManifest(init, last);
    }
  }

  /** A version that no earlier record carries is not yet in the manifest. */
  lemma FreshVersionNotInManifest(init: seq<UpdateDetails>, last: UpdateDetails)
    requires forall j :: 0 <= j < |init| ==> VersionOf(init[j]) != VersionOf(last)
    ensures !HasEquivalent(FromList(init), last)
  {
    var m := FromList(init);
    FromListFromDocument(init);
    forall k | 0 <= k < |m| ensures VersionOf(m[k]) != VersionOf(last) {
      assert m[k] in init;
    }
  }
}
