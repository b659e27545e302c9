/**
 * The web package after decoding: the path/contents pairs become the map the
 * client serves (`loadWebUpdates`, the `webInterfaceMap` loop).
 */
module WebPackage {
  import opened WebUpdates

  type FileEntry = (string, Bytes)

  /** The map the loop builds: entries applied in order, so a later duplicate overwrites. */
  function FileTable(files: seq<FileEntry>): map<string, Bytes>
    decreases |files|
  {
    if files == [] then map[]
    else FileTable(files[..|files| - 1])[files[|files| - 1].0 := files[|files| - 1].1]
  }

  /** Every decoded path is in the map, and nothing else is. */
  lemma {:induction false} FileTableKeys(files: seq<FileEntry>)
    ensures FileTable(files).Keys == set i | 0 <= i < |files| :: files[i].0
    decreases |files|
  {
    if files != [] {
      var init := files[..|files| - 1];
      FileTableKeys(init);
      assert (set i | 0 <= i < |files| :: files[i].0)
          == (set i | 0 <= i < |init| :: init[i].0) + {files[|files| - 1].0};
    }
  }

  /** A path maps to the contents of its LAST occurrence. */
  lemma {:induction false} FileTableLastWins(files: seq<FileEntry>, i: int)
    requires 0 <= i < |files|
    requires forall j :: i < j < |files| ==> files[j].0 != files[i].0
    ensures files[i].0 in FileTable(files) && FileTable(files)[files[i].0] == files[i].1
    decreases |files|
  {
    if i < |files| - 1 {
      var init := files[..|files| - 1];
      assert forall j :: i < j < |init| ==> init[j] == files[j];
      FileTableLastWins(init, i);
    }
  }

  /** The `webInterfaceMap` loop. */
  method BuildWebInterfaceMap(files: seq<FileEntry>) returns (webInterfaceMap: map<string, Bytes>)
    ensures webInterfaceMap == FileTable(files)
  {
    webInterfaceMap := map[];
    var n := 0;
    while n < |files|
      invariant 0 <= n <= |files|
      invariant webInterfaceMap == FileTable(files[..n])
    {
      assert files[..n + 1][..n] == files[..n];
      webInterfaceMap := webInterfaceMap[files[n].0 := files[n].1];
      n := n + 1;
    }
    assert files[..|files|] == files;
  }
}
