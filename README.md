# Signed web updates of a BitShares Qt client, in Dafny

This project models the web-update core of a BitShares-based Qt desktop client. The client can replace the HTML/JS bundle it serves without a binary release. The model covers:

- the update record and its version order (`WebUpdates.hpp`);
- the two-of-four signature check over a downloaded package (`MainWindow::verifyUpdateSignature`);
- the choice of update from a manifest (`checkWebUpdates`);
- the state the main window works on: the `web.json`/`web.dat` pair in the data directory, the current description, the running patch, and the installed package (`checkWebUpdates`, `loadWebUpdates`, `removeWebUpdates`). In the source the package is handed to the client wrapper (`clientWrapper()->set_web_package`, MainWindow.cpp:971, 1033); the field `MainWindow.webPackage` stands for that package;
- the custom-scheme link handlers (`processCustomUrl`, `goToTransfer`, `goToRefCode`, `deferCustomUrl`, `processDeferredUrl`);
- the bounded line buffer the crash handler uses (`TLimitedFileBuffer` in `BitSharesApp.cpp`).

Modules, one per component:

- `WebUpdates` — the record and its order. It also holds `signable_string`, the trust policy, and the manifest as a `std::set` (a strictly sorted sequence; an insert keeps the record already present).
- `SignatureCheck` — `verifyUpdateSignature`. The loop erases recovered addresses from a copy of the key set.
- `ManifestSelection` — `lower_bound` on the probe record, the step back to the predecessor, and the re-check, all as written.
- `WebPackage` — the loop that turns the unpacked path/contents pairs into the served map.
- `CustomUrl` — link routing and the two key/value parameter readers, with QString's `left`, `indexOf`, `split` (skipping empty parts), `toLower` and `toInt`.
- `MainWindowState` — class `MainWindow`, whose methods update its fields as the source's member functions do. It also holds the round trips download-then-load and defer-then-process.
- `LineBuffer` — class `LimitedFileBuffer`, plus the crash handler's use with 15000 lines.

The foreign primitives are parameters: SHA-256, secp256k1 public-key recovery with address derivation, JSON rendering and parsing, LZMA decompression, and binary unpacking. They are fields of the datatypes `SignatureCheck.Crypto` and `MainWindowState.Codecs`. A codec that throws in the source returns `None`. The build timestamp, the user's answers in dialogs, whether the window is visible, whether the wallet is unlocked and whether a client is running are also parameters.

`signable_string` clears the signatures of a copy. In the model, records are values, so the receiver's own signatures cannot change.

## Model

| member | source | states |
|---|---|---|
| `WebUpdates.DefaultDetails` | WebUpdates.hpp:51-56 | A default record has version 0.4.16, patch 'a', empty signatures, notes and URL, and timestamp 0 |
| `WebUpdates.Less` | WebUpdates.hpp:58-64 | `operator<`: never holds between two records of the same version, and a lower major version is never above a higher one |
| `WebUpdates.LessIsLexicographic` | WebUpdates.hpp:58-64 | `operator<` is exactly the lexicographic order on (major, fork, minor, patch), an independently written reference |
| `WebUpdates.LessIrreflexive` | WebUpdates.hpp:58-64 | No record is less than itself |
| `WebUpdates.LessTransitive` | WebUpdates.hpp:58-64 | The order is transitive for any three records |
| `WebUpdates.EquivalentIffSameVersion` | WebUpdates.hpp:58-64 | Neither record is less than the other exactly when all four version fields are equal |
| `WebUpdates.LessTrichotomous` | WebUpdates.hpp:58-64 | Any two records are ordered one way, or have equal versions, and never both ways |
| `WebUpdates.LessIgnoresPayload` | WebUpdates.hpp:58-64 | Signatures, notes, URL and timestamp play no part in the order |
| `WebUpdates.Unsigned` | WebUpdates.hpp:66-68 | The copy that is rendered has no signatures and every other field of the record |
| `WebUpdates.SignableString` | WebUpdates.hpp:66-70 | `signable_string`: the JSON rendering of the record with its signatures cleared (a definition; `SignableIgnoresSignatures` states its property) |
| `WebUpdates.SignableIgnoresSignatures` | WebUpdates.hpp:66-70 | Records that differ only in their signatures have the same signable string |
| `WebUpdates.TrustPolicyConsistent` | WebUpdates.hpp:14-20 | There are four distinct signing keys, and the requirement of 2 does not exceed them |
| `WebUpdates.SortedVersionsUnique` | WebUpdates.hpp:73 | A manifest holds at most one record per version tuple |
| `WebUpdates.Insert` | WebUpdates.hpp:73 | `std::set::insert`: every record of the result was in the set or is the new one, the new record is in the result unless its version was present, and the size grows by at most one |
| `WebUpdates.InsertCorrect` | WebUpdates.hpp:73 | Inserting into the set keeps it ordered; a record whose version is present is dropped; otherwise the contents grow by exactly that record |
| `WebUpdates.FromList` | WebUpdates.hpp:73 | The manifest read from a list of records is ordered by version |
| `WebUpdates.FromListFromDocument` | WebUpdates.hpp:73 | Every record in the manifest comes from the document |
| `WebUpdates.FromListFirstWins` | WebUpdates.hpp:73 | The first record of each version in the document is the one kept |
| `SignatureCheck.UpdateHash` | MainWindow.cpp:810-814 | The digest the signatures are checked against: SHA-256 of the package followed by the signable string (a definition; `HashIgnoresSignatures` states its property) |
| `SignatureCheck.Accepts` | MainWindow.cpp:798-823 | The independent statement of acceptance: both guards hold and at least 2 distinct authorized keys are among the recovered addresses (a definition; `VerifyUpdateSignature` is proved equal to it) |
| `SignatureCheck.MatchedSigners` | MainWindow.cpp:815-822 | The matched signers are authorized keys |
| `SignatureCheck.EraseRecoveredSigners` | MainWindow.cpp:816-821 | The erase loop leaves exactly the keys that no signature recovers to |
| `SignatureCheck.RemainingCountsMatches` | MainWindow.cpp:822 | The number of keys erased equals the number of distinct authorized keys recovered |
| `SignatureCheck.VerifyUpdateSignature` | MainWindow.cpp:796-826 | The result is true exactly when there are at least 2 signatures and 2 keys, the timestamp is not before the build, and at least 2 distinct authorized keys signed the hash of the package followed by the signable string |
| `SignatureCheck.RejectsFewSignatures` | MainWindow.cpp:798-802 | Fewer than 2 signatures are rejected whatever they recover to |
| `SignatureCheck.TimestampFloor` | MainWindow.cpp:803-806 | A record older than the build is rejected; with an equal timestamp the count of authorized signers decides |
| `SignatureCheck.HashIgnoresSignatures` | MainWindow.cpp:810-814 | The digest that is signed does not depend on the signatures |
| `SignatureCheck.AcceptedMeansTwoSigners` | MainWindow.cpp:815-823 | An accepted package has two signatures that recover to two different authorized keys |
| `SignatureCheck.NoiseSignaturesAddNothing` | MainWindow.cpp:815-823 | For any record, also one with fewer than 2 signatures, adding signatures from unauthorized keys or repeats of signers already counted leaves the matched signers and the verdict unchanged |
| `SignatureCheck.RecoveredAtMostSignatures` | MainWindow.cpp:816-822 | The loop erases at most one key per signature: no more distinct addresses are recovered than there are signatures |
| `ManifestSelection.LowerBound` | MainWindow.cpp:891 | `lower_bound`: every record before the index is below the probe; the record at the index is not |
| `ManifestSelection.LowerBoundPartitions` | MainWindow.cpp:891 | In an ordered manifest, no record from the lower bound on is below the probe |
| `ManifestSelection.Probe` | MainWindow.cpp:886-889 | The probe has the running major and fork, the running minor plus one modulo 256, and patch 'a' |
| `ManifestSelection.Eligible` | MainWindow.cpp:899-901 | The re-check of the candidate: same major, fork and minor as the running client, a newer patch, and at least 2 signatures (a definition; `SelectUpdate` and `SelectAgreesWithLineMax` use it) |
| `ManifestSelection.SelectUpdate` | MainWindow.cpp:886-907 | A selected record is in the manifest, is below the probe, has the running major, fork and minor, a patch above the running one, and at least 2 signatures |
| `ManifestSelection.NothingBelowProbe` | MainWindow.cpp:891-896 | If no record is below the probe there is no update |
| `ManifestSelection.CandidateIsGreatestBelowProbe` | MainWindow.cpp:891-898 | Otherwise the candidate is the greatest record below the probe |
| `ManifestSelection.SelectedIsLineMax` | MainWindow.cpp:897-907 | A selected record has the greatest patch of the running line |
| `ManifestSelection.SelectAgreesWithLineMax` | MainWindow.cpp:886-907 | If the minor does not wrap and no next-minor record sorts below patch 'a', a record is selected exactly when it has the greatest patch of the line, that patch is newer, and it has 2 signatures |
| `ManifestSelection.BlockingRecordHidesLine` | MainWindow.cpp:891-904 | One record of the next minor line with a patch below 'a' makes the selection come back empty |
| `ManifestSelection.BlockingExample` | MainWindow.cpp:891-904 | A concrete manifest where a valid update exists and is still not selected |
| `ManifestSelection.MinorWrapSelectsNothing` | MainWindow.cpp:889 | With minor 255 the probe wraps to minor 0 and nothing is selected |
| `ManifestSelection.NextPatchSelected` | MainWindow.cpp:886-907 | A record 1.4.16-b with two signatures is selected for a client running 1.4.16-a |
| `ManifestSelection.OtherForkNotSelected` | MainWindow.cpp:899-904 | A record 1.5.0-a is not selected for a client running 1.4.16-a |
| `ManifestSelection.NoUpdateAfterInstall` | MainWindow.cpp:1035 | Once the selected record's patch is the running patch, the same manifest offers no update |
| `WebPackage.FileTable` | MainWindow.cpp:1026-1028 | The map the loop builds: the entries applied in order (a definition; `FileTableKeys` and `FileTableLastWins` state its properties) |
| `WebPackage.FileTableKeys` | MainWindow.cpp:1026-1028 | The served map has every unpacked path as a key and nothing else |
| `WebPackage.FileTableLastWins` | MainWindow.cpp:1026-1028 | A path that occurs more than once maps to the contents of its last occurrence |
| `WebPackage.BuildWebInterfaceMap` | MainWindow.cpp:1026-1028 | The loop builds the map that applies the entries in order |
| `CustomUrl.Lower` | MainWindow.cpp:143 | Lower-casing keeps the length and maps each character through ASCII lower-casing |
| `CustomUrl.IndexOf` | MainWindow.cpp:143 | The first position of the character, or -1 when it does not occur |
| `CustomUrl.TrimSlashesCharacterized` | MainWindow.cpp:149-150 | Stripping removes only leading '/' characters and leaves a suffix that does not start with '/' |
| `CustomUrl.StripLeadingSlashes` | MainWindow.cpp:150 | The loop removes exactly the leading '/' characters |
| `CustomUrl.SplitPath` | MainWindow.cpp:153 | `QString::split('/', QString::SkipEmptyParts)` (a definition; `SplitPathParts`, `SplitSingle` and `SplitAtSlash` state it) |
| `CustomUrl.SplitPathParts` | MainWindow.cpp:153 | The non-empty parts contain no '/' and together spell the link without its '/' characters |
| `CustomUrl.SplitSingle` | MainWindow.cpp:153 | A text without '/' is one part, or no part when it is empty |
| `CustomUrl.SplitAtSlash` | MainWindow.cpp:153 | Every '/' is a part boundary: the parts of `a/b` are the parts of `a` followed by the parts of `b` |
| `CustomUrl.SplitIgnoresLeadingSlashes` | MainWindow.cpp:149-153 | Stripping leading '/' characters does not change the parts |
| `CustomUrl.ParseInt` | MainWindow.cpp:186 | `QString::toInt`: a parsed value lies in the range of `int`, and a text that parses ends in a digit |
| `CustomUrl.Decimal` | MainWindow.cpp:190 | A number prints as a non-empty string of digits |
| `CustomUrl.DecimalRoundTrip` | MainWindow.cpp:186-190 | A printed number within the `int` range parses back to itself |
| `CustomUrl.ProcessCustomUrl` | MainWindow.cpp:141-207 | The method computes the page the routing function gives for the link |
| `CustomUrl.Left` | MainWindow.cpp:143 | `QString::left`: a prefix of the text, of the given length when it is in range and of the whole text otherwise |
| `CustomUrl.SchemeOf` | MainWindow.cpp:143 | The compared scheme has as many characters as precede the first ':', and is the whole lower-cased link when there is no ':' |
| `CustomUrl.AfterScheme` | MainWindow.cpp:149 | `mid(indexOf(':') + 1)`: everything after the first ':'; without ':' the result is the whole link |
| `CustomUrl.AfterSchemeSplits` | MainWindow.cpp:143-149 | A link with a ':' is the text before its first ':', the ':', then what `AfterScheme` keeps |
| `CustomUrl.NoColonKeepsWholeLink` | MainWindow.cpp:143-149 | A link without ':' is compared whole as its scheme and, when that matches, routed whole |
| `CustomUrl.WrongSchemeLoadsNothing` | MainWindow.cpp:143-147 | A link whose lower-cased scheme is not the custom scheme loads nothing |
| `CustomUrl.RouteSuffix` | MainWindow.cpp:162-197 | The section table: what is appended is empty or starts with '/', and nothing is loaded exactly when the lower-cased first part is none of the listed sections, `accounts` or `blocks` |
| `CustomUrl.CustomUrlTarget` | MainWindow.cpp:140-199 | The page `processCustomUrl` loads (a definition; `ProcessCustomUrl` is proved equal to it and the routing lemmas state its cases) |
| `CustomUrl.TargetUnderEndpoint` | MainWindow.cpp:162-199 | Every page loaded starts with `http://<endpoint>/#` |
| `CustomUrl.UnknownSectionLoadsNothing` | MainWindow.cpp:196-197 | A first part that names no section loads nothing |
| `CustomUrl.SimpleSectionTarget` | MainWindow.cpp:163-169 | A simple section loads `/` followed by the lower-cased section under the endpoint |
| `CustomUrl.AccountsAndBlocksTarget` | MainWindow.cpp:170-183 | `accounts` alone loads `/accounts`; `accounts/<name>` loads `/accounts/` and the name as typed, not lower-cased; `blocks` alone loads `/blocks` |
| `CustomUrl.MalformedAccountsOrBlocksLoadBase` | MainWindow.cpp:170-195 | `accounts` with more than two parts, or `blocks` with an id that is not a number, still loads the bare `/#` page |
| `CustomUrl.ToUint32` | MainWindow.cpp:186 | Storing into `uint32_t`: the result is below 2^32 and congruent to the parsed value modulo 2^32 |
| `CustomUrl.NegativeBlockNumberWraps` | MainWindow.cpp:183-190 | `blocks/-1` parses as -1, is stored as 4294967295 and loads that block |
| `CustomUrl.BlockNumberCarried` | MainWindow.cpp:179-192 | A `blocks` link with a block number in decimal loads the page of that number |
| `CustomUrl.HashLinkFormLoadsNothing` | MainWindow.cpp:123-132 | The link form `xts://#/home` from the source's own comment routes nowhere, because its first part is '#' |
| `CustomUrl.GoToTransfer` | MainWindow.cpp:632-668 | With the wallet locked nothing happens; otherwise the transfer page is built from the parameters that the key/value reading yields |
| `CustomUrl.TransferParams` | MainWindow.cpp:640-659 | The `goToTransfer` loop as a recursive definition (`TransferValuesFromParameters`, `TransferUnknownKeyShifts` and `TransferExample` state its properties) |
| `CustomUrl.TransferValuesFromParameters` | MainWindow.cpp:642-659 | Each transfer field is either empty or one of the link's parameters |
| `CustomUrl.TransferUnknownKeyShifts` | MainWindow.cpp:657-658 | An unknown key does not consume a value, so what follows it is read as a key |
| `CustomUrl.TransferExample` | MainWindow.cpp:643-658 | An unknown key shifts the pairing, and a key left alone at the end is ignored |
| `CustomUrl.GoToRefCode` | MainWindow.cpp:420-442 | With the wallet locked nothing happens; otherwise the referral page is built from the parameters that the key/value reading yields |
| `CustomUrl.RefCodeParams` | MainWindow.cpp:426-436 | The `goToRefCode` loop as a recursive definition (`RefCodeValuesFromParameters` and `RefCodeUnknownKeyPops` state its properties) |
| `CustomUrl.RefCodeValuesFromParameters` | MainWindow.cpp:428-436 | Each referral field is either empty or one of the link's parameters |
| `CustomUrl.RefCodeUnknownKeyPops` | MainWindow.cpp:434-435 | An unknown key consumes its value |
| `CustomUrl.UnknownKeyContrast` | MainWindow.cpp:428-435 | The same list shape is paired differently by the two readers |
| `MainWindowState.Cleaned` | MainWindow.cpp:861-871 | After the cleanup both files are present or neither is; a consistent pair is unchanged; a surviving file keeps its contents |
| `MainWindowState.CleanedIdempotent` | MainWindow.cpp:861-871 | A second cleanup changes nothing |
| `MainWindowState.MainWindow.constructor` | MainWindow.cpp:58-67 | The window starts with the given running version, the files on disk, a default description and no package |
| `MainWindowState.MainWindow.CleanupOrphanedFiles` | MainWindow.cpp:861-871 | The check-time cleanup leaves both files or neither |
| `MainWindowState.MainWindow.OnManifestReply` | MainWindow.cpp:878-913 | An undecodable manifest or no selection changes nothing; otherwise the selected record becomes the description, and its package URL is fetched |
| `MainWindowState.MainWindow.OnPackageReply` | MainWindow.cpp:914-949 | Both files are written, with the package and the description, exactly when the signature check accepts and the user agrees; otherwise nothing is written |
| `MainWindowState.MainWindow.RemoveWebUpdates` | MainWindow.cpp:965-974 | Once confirmed, both files are deleted, the served package is emptied and the wallet is locked |
| `MainWindowState.MainWindow.LoadWebUpdates` | MainWindow.cpp:977-1036 | A missing file leaves everything unchanged. A failed signature deletes both files and deletes nothing else. A failed codec leaves both files. On success the served package is the unpacked table and the running patch is that of the record read |
| `MainWindowState.MainWindow.DeferCustomUrl` | MainWindow.cpp:100-109 | A visible window handles the link at once; a hidden one keeps it |
| `MainWindowState.MainWindow.ProcessDeferredUrl` | MainWindow.cpp:111-115 | The kept link is handled, then cleared |
| `MainWindowState.DownloadThenLoad` | MainWindow.cpp:942-949 | A package stored after the check verifies again at load, given that `web.json` parses back to the record written. The load cannot end by deleting it, and it installs when the codecs succeed |
| `MainWindowState.DeferThenProcess` | MainWindow.cpp:100-115 | A link kept while hidden loads the same page it would have loaded at once |
| `LineBuffer.LastLines` | BitSharesApp.cpp:117-134 | The kept lines are the last min(n, max) lines, in order |
| `LineBuffer.LastLinesSnoc` | BitSharesApp.cpp:119-124 | Append-then-drop-front on the kept lines gives the kept lines of the extended input |
| `LineBuffer.LimitedFileBuffer.constructor` | BitSharesApp.cpp:117 | The buffer starts empty with the given capacity |
| `LineBuffer.LimitedFileBuffer.PushBack` | BitSharesApp.cpp:119-124 | After a push the size is at most the capacity; below capacity the line is appended and nothing is dropped; at capacity exactly the oldest line goes |
| `LineBuffer.LimitedFileBuffer.Lines` | BitSharesApp.cpp:126-134 | Iteration yields the last min(n, max) pushed lines in push order |
| `LineBuffer.CollectLastLines` | BitSharesApp.cpp:161-164 | Copying a log through a buffer of 15000 lines keeps its last 15000 lines |

In the source, `_maxLineCount` is a plain private `size_t` that only the constructor writes (BitSharesApp.cpp:117, 137). The model makes it a `const` field, so nothing can change it after construction.

## Left out

- SHA-256, secp256k1 public-key recovery and address derivation are parameters of type `Crypto`. A recovery that throws on a malformed signature is not modelled; recovery always yields an address.
- The model does not state that changing one byte of the package changes the verdict: that needs collision resistance of SHA-256, which a parameter cannot provide.
- JSON rendering and parsing, LZMA decompression and `fc::raw::unpack` are parameters of type `Codecs`. The decoding of the manifest JSON into a list of records is an input of `OnManifestReply`.
- `BTS_ADDRESS_PREFIX` is not part of this model. The signing keys are their base58 bodies as strings.
- `CUSTOM_URL_SCHEME` and the HTTP endpoint come from code that is not part of this model. They are the parameters `scheme` and `endpoint`.
- `CustomUrl.Lower`: lower-cases ASCII letters only, not the full Unicode case mapping of `QString::toLower`.
- `CustomUrl.ParseInt`: does not trim the surrounding whitespace that `QString::toInt` accepts.
- `CustomUrl.GoToTransfer`: assumes no parameter contains `%1`…`%5`. `QString::arg` would substitute again into such text. It also requires at least one link part when the wallet is unlocked, because the source indexes `components[0]` (MainWindow.cpp:663) without checking, which is undefined on an empty list.
- `CustomUrl.GoToRefCode`: assumes no parameter contains `%1` or `%2`, for the same reason. It also requires the parameters to pair up, because the source calls `takeFirst`/`pop_front` on an empty list otherwise.
- The Qt shell is left out: dialogs, message boxes, menus, the web view reload and focus, the update timer, and the `finishedCheckCallback`. The user's answers in dialogs are boolean parameters, and the page a link loads is a return value.
- Networking is left out: the query string, `QNetworkAccessManager`, and the dispatch between manifest and package replies. They become the two methods `OnManifestReply` and `OnPackageReply`.
- The version-tag regular expression (MainWindow.cpp:58-67) is left out. The running version is a constructor argument.
- File I/O errors are not modelled: opening and writing `web.dat` is assumed to succeed. A crash between the two writes (MainWindow.cpp:942-945) is not modelled. The write order, package first, is kept in `OnPackageReply`.
- An exception out of `fc::json::from_file` in `loadWebUpdates` leaves the call. The model ends the load with `DescriptionUnreadable` and changes nothing.
- The rest of `BitSharesApp.cpp` and `MainWindow.cpp` is left out (startup, IPC, crash reporting, settings, login), as is the stream extraction of lines (`TLine`).

Where the code behaves in ways its comments and names do not suggest, the model follows the code. The lemmas show each case:

- The selection probe has patch 'a' and takes the predecessor in the whole order. A next-minor record with a patch below 'a' hides the line (`BlockingRecordHidesLine`). Minor 255 wraps (`MinorWrapSelectsNothing`).
- A load that finds only one of the two files returns without deleting anything. Deletion happens at the next update check (`CleanupOrphanedFiles`).
- A decompression or unpacking failure after a good signature keeps both files (`LoadWebUpdates`).
- A manifest with two records of one version keeps the first (`FromListFirstWins`). It is not rejected.
- A negative block number wraps through `uint32_t`: `blocks/-1` loads block 4294967295 (`NegativeBlockNumberWraps`).
- The link form `xts://#/...` listed in the source's own comment routes nowhere (`HashLinkFormLoadsNothing`).
- `LoadWebUpdates` assigns the description read from disk before the signature check. After a rejection, the window keeps that rejected description.
