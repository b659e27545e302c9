/**
 * Choosing the update to fetch from a manifest (`checkWebUpdates`, the
 * manifest branch): probe with the next minor version, step back to the
 * predecessor, then re-check it.
 */
module ManifestSelection {
  import opened WebUpdates

  /** `std::set::lower_bound`: the index of the first record not ordered below the probe. */
  function LowerBound(m: seq<UpdateDetails>, probe: UpdateDetails): (i: nat)
    ensures i <= |m|
    ensures forall k :: 0 <= k < i ==> Less(m[k], probe)
    ensures i < |m| ==> !Less(m[i], probe)
    decreases |m|
  {
    if m == [] || !Less(m[0], probe) then 0 else 1 + LowerBound(m[1..], probe)
  }

  /** In an ordered manifest, everything from the lower bound on is not below the probe. */
  lemma LowerBoundPartitions(m: seq<UpdateDetails>, probe: UpdateDetails)
    requires StrictlySorted(m)
    ensures forall k :: LowerBound(m, probe) <= k < |m| ==> !Less(m[k], probe)
  {
    var i := LowerBound(m, probe);
    forall k | i < k < |m| ensures !Less(m[k], probe) {
      if Less(m[k], probe) {
        LessTransitive(m[i], m[k], probe);
      }
    }
  }

  /**
   * The probe record: a default-constructed record with the running major and
   * fork and the running minor plus one, stored back into a `uint8_t` field.
   */
  function Probe(running: Version): (p: UpdateDetails)
    ensures VersionOf(p) == Version(running.major, running.fork, ((running.minor as int + 1) % 256) as uint8, PatchA)
  {
    DefaultDetails().(majorVersion := running.major, forkVersion := running.fork,
                      minorVersion := ((running.minor as int + 1) % 256) as uint8)
  }

  predicate SameLine(u: UpdateDetails, running: Version) {
    u.majorVersion == running.major && u.forkVersion == running.fork && u.minorVersion == running.minor
  }

  /** The re-check applied to the predecessor of the probe. */
  predicate Eligible(u: UpdateDetails, running: Version) {
    SameLine(u, running) && u.patchVersion > running.patch && |u.signatures| >= SignatureRequirement as int
  }

  /** The selection as the source performs it: predecessor of the probe, then the re-check. */
  function SelectUpdate(m: seq<UpdateDetails>, running: Version): (r: Option<UpdateDetails>)
    ensures r.Some? ==> r.value in m && Eligible(r.value, running)
    ensures r.Some? ==> Less(r.value, Probe(running))
  {
    var i := LowerBound(m, Probe(running));
    if i == 0 then None
    else
      var candidate := m[i - 1];
      if Eligible(candidate, running) then Some(candidate) else None
  }

  // ---------------------------------------------------------------------
  // What the selection does

  /** No record below the probe: no update. */
  lemma NothingBelowProbe(m: seq<UpdateDetails>, running: Version)
    requires forall u :: u in m ==> !Less(u, Probe(running))
    ensures SelectUpdate(m, running) == None
  {
  }

  /** The candidate is the greatest record below the probe. */
  lemma CandidateIsGreatestBelowProbe(m: seq<UpdateDetails>, running: Version)
    requires StrictlySorted(m)
    requires exists u :: u in m && Less(u, Probe(running))
    ensures LowerBound(m, Probe(running)) > 0
    ensures var c := m[LowerBound(m, Probe(running)) - 1];
      Less(c, Probe(running)) && forall u :: u in m && Less(u, Probe(running)) ==> !Less(c, u)
  {
    var p := Probe(running);
    var i := LowerBound(m, p);
    LowerBoundPartitions(m, p);
    var c := m[i - 1];
    forall u | u in m && Less(u, p) ensures !Less(c, u) {
      var k :| 0 <= k < |m| && m[k] == u;
      if k < i - 1 { assert Less(u, c); }
    }
  }

  /** The greatest-patch record of the running line. */
  predicate IsLineMax(m: seq<UpdateDetails>, running: Version, c: UpdateDetails) {
    c in m && SameLine(c, running) && forall u :: u in m && SameLine(u, running) ==> u.patchVersion <= c.patchVersion
  }

  /** Whatever is selected is the greatest-patch record of the running line. */
  lemma SelectedIsLineMax(m: seq<UpdateDetails>, running: Version)
    requires StrictlySorted(m)
    ensures SelectUpdate(m, running).Some? ==> IsLineMax(m, running, SelectUpdate(m, running).value)
  {
    var p := Probe(running);
    var i := LowerBound(m, p);
    if SelectUpdate(m, running).Some? {
      var c := m[i - 1];
      assert Less(c, p) && SameLine(c, running);
      assert running.minor < 255;
      forall u | u in m && SameLine(u, running) ensures u.patchVersion <= c.patchVersion {
        assert Less(u, p);
        CandidateIsGreatestBelowProbe(m, running);
      }
    }
  }

  /** A record of the next minor line with a patch below 'a' (an upper-case letter, say). */
  predicate Blocks(u: UpdateDetails, running: Version) {
    u.majorVersion == running.major && u.forkVersion == running.fork
    && u.minorVersion as int == (running.minor as int + 1) % 256 && u.patchVersion < PatchA
  }

  /**
   * Agreement with "the greatest-patch record of the running line, if it is
   * newer and signed enough", when the minor version does not wrap and no
   * record of the next minor line sorts below patch 'a'.
   */
  lemma SelectAgreesWithLineMax(m: seq<UpdateDetails>, running: Version, c: UpdateDetails)
    requires StrictlySorted(m)
    requires running.minor < 255
    requires forall u :: u in m ==> !Blocks(u, running)
    ensures SelectUpdate(m, running) == Some(c) <==>
      (IsLineMax(m, running, c) && c.patchVersion > running.patch && |c.signatures| >= SignatureRequirement as int)
  {
    SelectedIsLineMax(m, running);
    if IsLineMax(m, running, c) && c.patchVersion > running.patch && |c.signatures| >= SignatureRequirement as int {
      var p := Probe(running);
      assert Less(c, p);
      CandidateIsGreatestBelowProbe(m, running);
      var d := m[LowerBound(m, p) - 1];
      assert !Less(d, c) && Less(d, p);
      // d lies in [c, p): it is in c's line or a blocking record of the next line.
      assert d in m && !Blocks(d, running);
      assert SameLine(d, running);
      assert d.patchVersion == c.patchVersion;
      var i :| 0 <= i < |m| && m[i] == d;
      var j :| 0 <= j < |m| && m[j] == c;
      SameVersionSamePosition(m, i, j);
    }
  }

  /** A blocking record hides the whole running line: no update, whatever else is there. */
  lemma BlockingRecordHidesLine(m: seq<UpdateDetails>, running: Version, b: UpdateDetails)
    requires StrictlySorted(m)
    requires b in m && Blocks(b, running)
    ensures SelectUpdate(m, running) == None
  {
    var p := Probe(running);
    assert Less(b, p);
    CandidateIsGreatestBelowProbe(m, running);
    var d := m[LowerBound(m, p) - 1];
    assert !Less(d, b) && Less(d, p);
    assert !SameLine(d, running);
  }

  /** With minor version 255 the probe wraps to minor 0 and nothing of the line can be selected. */
  lemma MinorWrapSelectsNothing(m: seq<UpdateDetails>, running: Version)
    requires running.minor == 255
    ensures SelectUpdate(m, running) == None
  {
  }

  /** A valid same-line update exists, yet a blocking record makes the selection come back empty. */
  lemma BlockingExample()
    ensures var running := Version(1, 4, 16, PatchA);
      var good := UpdateDetails(1, 4, 16, 98, {[1], [2]}, "", "", 0);
      var blocker := UpdateDetails(1, 4, 17, 65, {}, "", "", 0);
      StrictlySorted([good, blocker]) && Eligible(good, running) && SelectUpdate([good, blocker], running) == None
  {
    var running := Version(1, 4, 16, PatchA);
    var good := UpdateDetails(1, 4, 16, 98, {[1], [2]}, "", "", 0);
    var blocker := UpdateDetails(1, 4, 17, 65, {}, "", "", 0);
    var s1: Signature, s2: Signature := [1], [2];
    assert s1[0] != s2[0];
    assert |{s1, s2}| == 2;
    BlockingRecordHidesLine([good, blocker], running, blocker);
  }

  /** A signed record one patch above the running version, alone in the manifest, is selected. */
  lemma NextPatchSelected()
    ensures var r := UpdateDetails(1, 4, 16, 98, {[1], [2]}, "", "", 0);
      SelectUpdate([r], Version(1, 4, 16, PatchA)) == Some(r)
  {
    var s1: Signature, s2: Signature := [1], [2];
    assert s1[0] != s2[0];
    assert |{s1, s2}| == 2;
  }

  /** A record of another fork line is never selected (a 1.5.0-a record, a 1.4.16-a client). */
  lemma OtherForkNotSelected()
    ensures SelectUpdate([UpdateDetails(1, 5, 0, PatchA, {[1], [2]}, "", "", 0)], Version(1, 4, 16, PatchA)) == None
  {
  }

  /**
   * Installing the selected record sets the running patch to its patch, so
   * the same manifest then offers nothing: no update is fetched twice.
   */
  lemma NoUpdateAfterInstall(m: seq<UpdateDetails>, running: Version, c: UpdateDetails)
    requires StrictlySorted(m)
    requires SelectUpdate(m, running) == Some(c)
    ensures SelectUpdate(m, running.(patch := c.patchVersion)) == None
  {
    var next := running.(patch := c.patchVersion);
    SelectedIsLineMax(m, running);
    SelectedIsLineMax(m, next);
  }
}
