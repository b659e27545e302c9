/**
 * The main window's web-update state: the two files `web.json` and `web.dat`
 * in the data directory, the current update description, the installed web
 * package, the running version, and the one-slot store of a custom link
 * that arrived while the window was hidden.
 */
module MainWindowState {
  import opened WebUpdates
  import opened SignatureCheck
  import opened ManifestSelection
  import opened WebPackage
  import CustomUrl

  /**
   * The foreign codecs the update flow consumes: JSON rendering of a record
   * (the string that is signed, and the contents written to `web.json`),
   * JSON parsing of `web.json` back to a record, LZMA decompression and
   * binary unpacking of the package. A failure to parse, decompress or
   * unpack is `None`.
   */
  datatype Codecs = Codecs(
    jsonString: UpdateDetails -> Bytes,
    jsonFile: UpdateDetails -> Bytes,
    parseJson: Bytes -> Option<UpdateDetails>,
    decompress: Bytes -> Option<Bytes>,
    unpack: Bytes -> Option<seq<FileEntry>>)

  /** `web.json` and `web.dat` in the data directory: each absent or holding its bytes. */
  datatype WebFiles = WebFiles(json: Option<Bytes>, dat: Option<Bytes>)

  /** The two files form one unit: both present or both absent. */
  predicate BothOrNeither(f: WebFiles) {
    f.json.Some? == f.dat.Some?
  }

  /**
   * The check-time cleanup: when exactly one of the two files exists, it is
   * deleted.
   */
  function Cleaned(f: WebFiles): (r: WebFiles)
    ensures BothOrNeither(r)
    ensures BothOrNeither(f) ==> r == f
    ensures r.json.Some? ==> r.json == f.json
    ensures r.dat.Some? ==> r.dat == f.dat
  {
    if f.json.Some? != f.dat.Some? then
      var afterJson := if f.json.Some? then f.(json := None) else f;
      if afterJson.dat.Some? then afterJson.(dat := None) else afterJson
    else f
  }

  /** A second cleanup finds nothing to do. */
  lemma CleanedIdempotent(f: WebFiles)
    ensures Cleaned(Cleaned(f)) == Cleaned(f)
  {
  }

  /** What `loadWebUpdates` ended with. */
  datatype LoadOutcome =
    | NoDescription          // no web.json
    | NoPackage              // web.json without web.dat
    | DescriptionUnreadable  // web.json does not parse as a record (an exception leaves the call)
    | SignatureRejected      // the package does not verify: both files deleted
    | DecompressFailed
    | DeserializeFailed
    | Installed

  class MainWindow {
    /** The running version, read from the build's version tag. */
    const majorVersion: uint8
    const forkVersion: uint8
    const minorVersion: uint8
    var patchVersion: uint8

    var files: WebFiles
    var webUpdateDescription: UpdateDetails
    /** The package the client's HTTP server serves, path to contents. */
    var webPackage: map<string, Bytes>
    /**
     * Whether `lock()` has been called on the wallet since the window was
     * made; it does not describe the wallet's state before that.
     */
    var lockRequested: bool
    var deferredUrl: string

    function Running(): Version
      reads this
    {
      Version(majorVersion, forkVersion, minorVersion, patchVersion)
    }

    constructor (major: uint8, fork: uint8, minor: uint8, patch: uint8, onDisk: WebFiles)
      ensures Running() == Version(major, fork, minor, patch)
      ensures files == onDisk && webUpdateDescription == DefaultDetails()
      ensures webPackage == map[] && !lockRequested && deferredUrl == ""
    {
      majorVersion, forkVersion, minorVersion, patchVersion := major, fork, minor, patch;
      files := onDisk;
      webUpdateDescription := DefaultDetails();
      webPackage := map[];
      lockRequested := false;
      deferredUrl := "";
    }

    // -------------------------------------------------------------------
    // Checking for updates

    /** The file cleanup `checkWebUpdates` performs before it asks for the manifest. */
    method CleanupOrphanedFiles()
      modifies this`files
      ensures files == Cleaned(old(files))
      ensures BothOrNeither(files)
    {
      if files.json.Some? != files.dat.Some? {
        if files.json.Some? {
          files := files.(json := None);
        }
        if files.dat.Some? {
          files := files.(dat := None);
        }
      }
    }

    /**
     * The manifest reply: `manifest` is the decoded list of records, or none
     * when decoding failed. The records are put in a set in document order,
     * the update is selected for the running version, and when there is one
     * it becomes the current description and its package address is returned
     * to be fetched.
     */
    method OnManifestReply(manifest: Option<seq<UpdateDetails>>) returns (packageUrl: Option<string>)
      modifies this`webUpdateDescription
      ensures manifest.None? ==> packageUrl.None? && webUpdateDescription == old(webUpdateDescription)
      ensures manifest.Some? ==>
        match SelectUpdate(FromList(manifest.value), Running())
        case None => packageUrl.None? && webUpdateDescription == old(webUpdateDescription)
        case Some(c) => webUpdateDescription == c && packageUrl == Some(c.updatePackageUrl)
      ensures packageUrl.Some? ==>
        && webUpdateDescription in FromList(manifest.value)
        && Eligible(webUpdateDescription, Running())
    {
      if manifest.None? {
        return None;
      }
      var updates := FromList(manifest.value);
      var selected := SelectUpdate(updates, Running());
      if selected.None? {
        return None;
      }
      webUpdateDescription := selected.value;
      packageUrl := Some(webUpdateDescription.updatePackageUrl);
    }

    /**
     * The package reply: the package is checked against the current
     * description; when it verifies and the user agrees, `web.dat` is written
     * with the package and then `web.json` with the description.
     */
    method OnPackageReply(crypto: Crypto, codecs: Codecs, package: Bytes, buildTimestamp: nat, userAccepts: bool)
      returns (stored: bool)
      modifies this`files
      ensures stored == (Accepts(crypto, codecs.jsonString, webUpdateDescription, package, buildTimestamp) && userAccepts)
      ensures stored ==> files == WebFiles(Some(codecs.jsonFile(webUpdateDescription)), Some(package))
      ensures !stored ==> files == old(files)
    {
      var verified := VerifyUpdateSignature(crypto, codecs.jsonString, webUpdateDescription, package, buildTimestamp);
      if !verified || !userAccepts {
        return false;
      }
      files := files.(dat := Some(package));
      files := files.(json := Some(codecs.jsonFile(webUpdateDescription)));
      stored := true;
    }

    /**
     * `removeWebUpdates`, once the user has confirmed: both files deleted,
     * the served package emptied and the wallet locked.
     */
    method RemoveWebUpdates(confirmed: bool)
      modifies this`files, this`webPackage, this`lockRequested
      ensures confirmed ==> files == WebFiles(None, None) && webPackage == map[] && lockRequested
      ensures !confirmed ==>
        files == old(files) && webPackage == old(webPackage) && lockRequested == old(lockRequested)
    {
      if confirmed {
        files := files.(json := None);
        files := files.(dat := None);
        webPackage := map[];
        lockRequested := true;
      }
    }

    // -------------------------------------------------------------------
    // Loading an installed update

    /**
     * `loadWebUpdates`: read the description from `web.json` and the package
     * from `web.dat`, check the signature, decompress, unpack and install
     * the package, and take the installed patch as the running one.
     * `clientReady` says whether a client with a wallet is up, which is when
     * the wallet is locked.
     */
    method LoadWebUpdates(crypto: Crypto, codecs: Codecs, buildTimestamp: nat, clientReady: bool)
      returns (outcome: LoadOutcome)
      modifies this`files, this`webUpdateDescription, this`webPackage, this`lockRequested, this`patchVersion
      // No description, or no package: nothing changes.
      ensures outcome == NoDescription <==> old(files.json).None?
      ensures outcome == NoPackage <==> old(files.json).Some? && old(files.dat).None?
      ensures outcome == DescriptionUnreadable <==>
        old(files.json).Some? && old(files.dat).Some? && codecs.parseJson(old(files.json).value).None?
      ensures outcome in {NoDescription, NoPackage, DescriptionUnreadable} ==>
        && files == old(files) && webUpdateDescription == old(webUpdateDescription)
        && webPackage == old(webPackage) && lockRequested == old(lockRequested) && patchVersion == old(patchVersion)
      // Both files present: the description read from web.json becomes current.
      ensures old(files.json).Some? && old(files.dat).Some? && codecs.parseJson(old(files.json).value).Some? ==>
        var d := codecs.parseJson(old(files.json).value).value;
        && webUpdateDescription == d
        && (outcome == SignatureRejected <==> !Accepts(crypto, codecs.jsonString, d, old(files.dat).value, buildTimestamp))
      // Only a signature failure deletes, and it deletes both files.
      ensures outcome == SignatureRejected ==> files == WebFiles(None, None)
      ensures outcome != SignatureRejected ==> files == old(files)
      ensures outcome in {SignatureRejected, DecompressFailed, DeserializeFailed} ==>
        webPackage == old(webPackage) && lockRequested == old(lockRequested) && patchVersion == old(patchVersion)
      // After a good signature: the codecs decide.
      ensures outcome in {DecompressFailed, DeserializeFailed, Installed} ==>
        old(files.dat).Some? && Accepts(crypto, codecs.jsonString, webUpdateDescription, old(files.dat).value, buildTimestamp)
      ensures outcome == DecompressFailed ==> codecs.decompress(old(files.dat).value).None?
      ensures outcome == DeserializeFailed ==>
        && codecs.decompress(old(files.dat).value).Some?
        && codecs.unpack(codecs.decompress(old(files.dat).value).value).None?
      ensures outcome == Installed ==>
        && codecs.decompress(old(files.dat).value).Some?
        && var entries := codecs.unpack(codecs.decompress(old(files.dat).value).value);
        && entries.Some?
        && webPackage == FileTable(entries.value)
        && patchVersion == webUpdateDescription.patchVersion
        && lockRequested == (old(lockRequested) || clientReady)
    {
      if files.json.None? {
        return NoDescription;
      }
      if files.dat.None? {
        return NoPackage;
      }
      var parsed := codecs.parseJson(files.json.value);
      if parsed.None? {
        return DescriptionUnreadable;
      }
      webUpdateDescription := parsed.value;
      var updatePackage := files.dat.value;
      var verified := VerifyUpdateSignature(crypto, codecs.jsonString, webUpdateDescription, updatePackage, buildTimestamp);
      if !verified {
        files := files.(json := None);
        files := files.(dat := None);
        return SignatureRejected;
      }
      var decompressedStream := codecs.decompress(updatePackage);
      if decompressedStream.None? {
        return DecompressFailed;
      }
      var deserializedPackage := codecs.unpack(decompressedStream.value);
      if deserializedPackage.None? {
        return DeserializeFailed;
      }
      var webInterfaceMap := BuildWebInterfaceMap(deserializedPackage.value);
      if clientReady {
        lockRequested := true;
      }
      webPackage := webInterfaceMap;
      patchVersion := webUpdateDescription.patchVersion;
      outcome := Installed;
    }

    // -------------------------------------------------------------------
    // Custom links while the window is hidden

    /**
     * `deferCustomUrl`: a visible window handles the link at once (the page
     * it loads is returned); a hidden one keeps it, replacing any link kept
     * before.
     */
    method DeferCustomUrl(url: string, visible: bool, scheme: string, endpoint: string)
      returns (target: Option<string>)
      modifies this`deferredUrl
      ensures visible ==> target == CustomUrl.CustomUrlTarget(url, scheme, endpoint) && deferredUrl == old(deferredUrl)
      ensures !visible ==> target.None? && deferredUrl == url
    {
      if visible {
        target := CustomUrl.ProcessCustomUrl(url, scheme, endpoint);
        return;
      }
      deferredUrl := url;
      target := None;
    }

    /** `processDeferredUrl`: handle the kept link, then forget it. */
    method ProcessDeferredUrl(scheme: string, endpoint: string) returns (target: Option<string>)
      modifies this`deferredUrl
      ensures target == CustomUrl.CustomUrlTarget(old(deferredUrl), scheme, endpoint)
      ensures deferredUrl == ""
    {
      target := CustomUrl.ProcessCustomUrl(deferredUrl, scheme, endpoint);
      deferredUrl := "";
    }
  }

  // ---------------------------------------------------------------------
  // Properties across several calls

  /**
   * The hand-over from download to install: a package stored after the
   * check is accepted again when it is loaded, provided the JSON written to
   * `web.json` parses back to the same record. The load then installs it
   * unless a codec fails, and the running patch becomes the record's.
   */
  method DownloadThenLoad(w: MainWindow, crypto: Crypto, codecs: Codecs, package: Bytes,
                          buildTimestamp: nat, clientReady: bool)
    returns (stored: bool, outcome: Option<LoadOutcome>)
    requires codecs.parseJson(codecs.jsonFile(w.webUpdateDescription)) == Some(w.webUpdateDescription)
    modifies w
    ensures stored == Accepts(crypto, codecs.jsonString, old(w.webUpdateDescription), package, buildTimestamp)
    ensures outcome.Some? == stored
    ensures stored ==> outcome.value in {DecompressFailed, DeserializeFailed, Installed}
    ensures stored ==> w.webUpdateDescription == old(w.webUpdateDescription) && BothOrNeither(w.files)
    ensures outcome == Some(Installed) ==> w.patchVersion == old(w.webUpdateDescription).patchVersion
    ensures stored && codecs.decompress(package).Some? && codecs.unpack(codecs.decompress(package).value).Some? ==>
      outcome == Some(Installed)
  {
    stored := w.OnPackageReply(crypto, codecs, package, buildTimestamp, true);
    if stored {
      var loaded := w.LoadWebUpdates(crypto, codecs, buildTimestamp, clientReady);
      outcome := Some(loaded);
    } else {
      outcome := None;
    }
  }

  /**
   * A link that arrives while the window is hidden and is handled when it
   * is shown loads the page the link would have loaded at once.
   */
  method DeferThenProcess(w: MainWindow, url: string, scheme: string, endpoint: string)
    returns (target: Option<string>)
    modifies w
    ensures target == CustomUrl.CustomUrlTarget(url, scheme, endpoint)
    ensures w.deferredUrl == ""
  {
    var none := w.DeferCustomUrl(url, false, scheme, endpoint);
    target := w.ProcessDeferredUrl(scheme, endpoint);
  }
}
