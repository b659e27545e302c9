/**
 * The threshold signature check over a downloaded update package
 * (`MainWindow::verifyUpdateSignature`).
 */
module SignatureCheck {
  import opened WebUpdates

  /**
   * The foreign primitives the check consumes: SHA-256 (FIPS 180-4) and
   * secp256k1 public-key recovery followed by address derivation.
   */
  datatype Crypto = Crypto(sha256: Bytes -> Bytes, recover: (Signature, Bytes) -> Address)

  /** The digest every signature is checked against: SHA-256 of the package, then the signable string. */
  function UpdateHash(crypto: Crypto, toJson: UpdateDetails -> Bytes, u: UpdateDetails, package: Bytes): Bytes {
    crypto.sha256(package + SignableString(toJson, u))
  }

  /** The addresses recovered from a set of signatures over one digest. */
  function Recovered(crypto: Crypto, sigs: set<Signature>, hash: Bytes): set<Address> {
    set s | s in sigs :: crypto.recover(s, hash)
  }

  /** The distinct authorized signers of a record over a package. */
  function MatchedSigners(crypto: Crypto, toJson: UpdateDetails -> Bytes, u: UpdateDetails, package: Bytes): (r: set<Address>)
    ensures r <= SigningKeys
  {
    SigningKeys * Recovered(crypto, u.signatures, UpdateHash(crypto, toJson, u, package))
  }

  /** When the check accepts: the two guards pass and enough distinct authorized keys signed. */
  predicate Accepts(crypto: Crypto, toJson: UpdateDetails -> Bytes, u: UpdateDetails, package: Bytes, buildTimestamp: nat) {
    && |u.signatures| >= SignatureRequirement as int
    && |SigningKeys| >= SignatureRequirement as int
    && u.timestamp >= buildTimestamp
    && |MatchedSigners(crypto, toJson, u, package)| >= SignatureRequirement as int
  }

  /** What is left of a set after erasing some elements: |K| - |K - R| counts K * R. */
  lemma RemainingCountsMatches<T>(keys: set<T>, recovered: set<T>)
    ensures |keys| - |keys - recovered| == |keys * recovered|
  {
    assert keys == (keys - recovered) + (keys * recovered);
    assert (keys - recovered) !! (keys * recovered);
  }

  lemma RecoveredAddOne(crypto: Crypto, seen: set<Signature>, s: Signature, hash: Bytes)
    ensures Recovered(crypto, seen + {s}, hash) == Recovered(crypto, seen, hash) + {crypto.recover(s, hash)}
  {
  }

  /** The loop of `verifyUpdateSignature`: erase each recovered address from a copy of the keys. */
  method EraseRecoveredSigners(crypto: Crypto, signatures: set<Signature>, hash: Bytes)
    returns (authorizedSigners: set<Address>)
    ensures authorizedSigners == SigningKeys - Recovered(crypto, signatures, hash)
  {
    authorizedSigners := SigningKeys;
    var pending := signatures;
    ghost var seen: set<Signature> := {};
    while pending != {}
      invariant pending + seen == signatures && pending !! seen
      invariant authorizedSigners == SigningKeys - Recovered(crypto, seen, hash)
      decreases |pending|
    {
      var signature :| signature in pending;
      RecoveredAddOne(crypto, seen, signature, hash);
      authorizedSigners := authorizedSigners - {crypto.recover(signature, hash)};
      pending := pending - {signature};
      seen := seen + {signature};
    }
  }

  /**
   * `verifyUpdateSignature`: the two guards, then the digest, then the count of
   * authorized keys erased by recovery, which is the number of distinct
   * authorized signers.
   */
  method VerifyUpdateSignature(crypto: Crypto, toJson: UpdateDetails -> Bytes, u: UpdateDetails,
                               package: Bytes, buildTimestamp: nat)
    returns (ok: bool)
    ensures ok == Accepts(crypto, toJson, u, package, buildTimestamp)
  {
    if |u.signatures| < SignatureRequirement as int || |SigningKeys| < SignatureRequirement as int {
      return false;
    }
    if u.timestamp < buildTimestamp {
      return false;
    }
    var hash := crypto.sha256(package + SignableString(toJson, u));
    var authorizedSigners := EraseRecoveredSigners(crypto, u.signatures, hash);
    RemainingCountsMatches(SigningKeys, Recovered(crypto, u.signatures, hash));
    ok := |SigningKeys| - |authorizedSigners| >= SignatureRequirement as int;
  }

  // ---------------------------------------------------------------------
  // Properties of the check

  /** Too few signatures in the record: rejected before any recovery. */
  lemma RejectsFewSignatures(crypto: Crypto, toJson: UpdateDetails -> Bytes, u: UpdateDetails, package: Bytes, buildTimestamp: nat)
    requires |u.signatures| < SignatureRequirement as int
    ensures !Accepts(crypto, toJson, u, package, buildTimestamp)
  {
  }

  /** A record older than the build is rejected; an equal timestamp passes this step. */
  lemma TimestampFloor(crypto: Crypto, toJson: UpdateDetails -> Bytes, u: UpdateDetails, package: Bytes, buildTimestamp: nat)
    ensures u.timestamp < buildTimestamp ==> !Accepts(crypto, toJson, u, package, buildTimestamp)
    ensures u.timestamp == buildTimestamp && |u.signatures| >= SignatureRequirement as int ==>
      (Accepts(crypto, toJson, u, package, buildTimestamp) <==>
       |MatchedSigners(crypto, toJson, u, package)| >= SignatureRequirement as int)
  {
    TrustPolicyConsistent();
  }

  /** The signatures do not take part in the digest they sign. */
  lemma HashIgnoresSignatures(crypto: Crypto, toJson: UpdateDetails -> Bytes, u: UpdateDetails, package: Bytes, sigs: set<Signature>)
    ensures UpdateHash(crypto, toJson, u.(signatures := sigs), package) == UpdateHash(crypto, toJson, u, package)
  {
    SignableIgnoresSignatures(toJson, u, sigs);
  }

  /**
   * Accepted means: two different authorized keys each produced one of the
   * signatures over this package and this description.
   */
  lemma AcceptedMeansTwoSigners(crypto: Crypto, toJson: UpdateDetails -> Bytes, u: UpdateDetails, package: Bytes, buildTimestamp: nat)
    requires Accepts(crypto, toJson, u, package, buildTimestamp)
    ensures exists s1, s2 ::
      (&& s1 in u.signatures && s2 in u.signatures
       && crypto.recover(s1, UpdateHash(crypto, toJson, u, package)) in SigningKeys
       && crypto.recover(s2, UpdateHash(crypto, toJson, u, package)) in SigningKeys
       && crypto.recover(s1, UpdateHash(crypto, toJson, u, package)) != crypto.recover(s2, UpdateHash(crypto, toJson, u, package)))
  {
    var h := UpdateHash(crypto, toJson, u, package);
    var matched := MatchedSigners(crypto, toJson, u, package);
    var a :| a in matched;
    assert |matched - {a}| >= 1;
    var b :| b in matched - {a};
    var s1 :| s1 in u.signatures && crypto.recover(s1, h) == a;
    var s2 :| s2 in u.signatures && crypto.recover(s2, h) == b;
  }

  /**
   * Signatures from unauthorized keys, or repeating a signer already counted,
   * change nothing: the outcome is that of the record without them.
   */
  lemma NoiseSignaturesAddNothing(crypto: Crypto, toJson: UpdateDetails -> Bytes, u: UpdateDetails,
                                  package: Bytes, buildTimestamp: nat, extra: set<Signature>)
    requires forall s :: s in extra ==>
      var a := crypto.recover(s, UpdateHash(crypto, toJson, u, package));
      a !in SigningKeys || a in Recovered(crypto, u.signatures, UpdateHash(crypto, toJson, u, package))
    ensures MatchedSigners(crypto, toJson, u.(signatures := u.signatures + extra), package)
         == MatchedSigners(crypto, toJson, u, package)
    ensures Accepts(crypto, toJson, u.(signatures := u.signatures + extra), package, buildTimestamp)
        <==> Accepts(crypto, toJson, u, package, buildTimestamp)
  {
    var u' := u.(signatures := u.signatures + extra);
    var h := UpdateHash(crypto, toJson, u, package);
    HashIgnoresSignatures(crypto, toJson, u, package, u.signatures + extra);
    assert UpdateHash(crypto, toJson, u', package) == h;
    var before := Recovered(crypto, u.signatures, h);
    var after := Recovered(crypto, u'.signatures, h);
    forall a | a in SigningKeys * after ensures a in before {
      var s :| s in u'.signatures && crypto.recover(s, h) == a;
    }
    assert SigningKeys * after == SigningKeys * before;
    assert |u'.signatures| >= |u.signatures| by {
      assert u'.signatures == u.signatures + (extra - u.signatures);
      assert u.signatures !! (extra - u.signatures);
    }
    if |u.signatures| < SignatureRequirement as int {
      // Too few signatures before: too few signers after, whatever `extra` adds.
      RecoveredAtMostSignatures(crypto, u.signatures, h);
      assert before == (SigningKeys * before) + (before - SigningKeys);
      assert (SigningKeys * before) !! (before - SigningKeys);
    }
  }

  /** No more distinct addresses are recovered than there are signatures. */
  lemma {:induction false} RecoveredAtMostSignatures(crypto: Crypto, sigs: set<Signature>, hash: Bytes)
    ensures |Recovered(crypto, sigs, hash)| <= |sigs|
    decreases |sigs|
  {
    if sigs != {} {
      var s :| s in sigs;
      var rest := sigs - {s};
      RecoveredAtMostSignatures(crypto, rest, hash);
      RecoveredAddOne(crypto, rest, s, hash);
      assert rest + {s} == sigs;
    }
  }
}
