/** Path derivation (`generate_paths`): for every enabled scan area of a job, the
    local folder its images were acquired into and the bucket folder they are
    uploaded under. The rule is the same in cloud.py and cloud_up.py. */
module Naming {
  import opened Text
  import opened PosixPath

  /** The ScanArea columns path derivation reads; `settingsId` is
      AcquireSettings_id and `enabled` the Enabled flag. */
  datatype ScanAreaRecord = ScanAreaRecord(id: int, name: string, orderIndex: int, settingsId: int, enabled: bool)

  /** The job-name marker that switches to the "continued acquisition" rule. */
  const Marker := "Continue"

  /** The query `SELECT name, OrderIndex FROM ScanArea WHERE
      AcquireSettings_id = job_id AND Enabled = 1`: the enabled rows filed under
      the job id, in table order. */
  function EnabledScanAreas(table: seq<ScanAreaRecord>, jobId: int): (rows: seq<ScanAreaRecord>)
    ensures forall a :: a in rows <==> a in table && a.settingsId == jobId && a.enabled
    ensures |rows| <= |table|
  {
    if table == [] then []
    else
      var rest := EnabledScanAreas(table[1..], jobId);
      if table[0].settingsId == jobId && table[0].enabled then [table[0]] + rest else rest
  }

  /** `os.path.join(str(job_id), "Acquire_0", str(order_index))`. */
  function LocalPath(jobId: int, orderIndex: int): string {
    Join(Join(IntToString(jobId), "Acquire_0"), IntToString(orderIndex))
  }

  /** `' '.join(words[:-2])`: every word of the job name but the last two. */
  function ParentFolder(jobName: string): string {
    var words := Split(jobName);
    JoinWords(if |words| >= 2 then words[..|words| - 2] else [])
  }

  /** `' '.join(words[-2:])`: the last two words of the job name (all of them
      when there are fewer). */
  function SubFolder(jobName: string): string {
    var words := Split(jobName);
    JoinWords(if |words| >= 2 then words[|words| - 2..] else words)
  }

  /** The bucket folder of one scan area of a job. */
  function CloudPath(jobName: string, scanName: string): string {
    if Contains(jobName, Marker) then Join(Join(ParentFolder(jobName), scanName), SubFolder(jobName))
    else Join(Join(jobName, scanName), "Primary")
  }

  /** The (local, cloud) pairs `generate_paths` derives from the rows, in row
      order, as the upload loop zips them. */
  function PathPairs(records: seq<ScanAreaRecord>, jobId: int, jobName: string): seq<(string, string)> {
    seq(|records|, i requires 0 <= i < |records| => (LocalPath(jobId, records[i].orderIndex), CloudPath(jobName, records[i].name)))
  }

  /** `generate_paths`: one local and one cloud path per enabled scan area of
      the job, appended in record order. */
  method GeneratePaths(scanAreas: seq<ScanAreaRecord>, jobId: int, jobName: string)
    returns (localPaths: seq<string>, cloudPaths: seq<string>)
    ensures var records := EnabledScanAreas(scanAreas, jobId);
      && |localPaths| == |records| && |cloudPaths| == |records|
      && forall i :: 0 <= i < |records| ==>
           && localPaths[i] == LocalPath(jobId, records[i].orderIndex)
           && cloudPaths[i] == CloudPath(jobName, records[i].name)
  {
    var records := EnabledScanAreas(scanAreas, jobId);
    localPaths, cloudPaths := [], [];
    for k := 0 to |records|
      invariant |localPaths| == k && |cloudPaths| == k
      invariant forall i :: 0 <= i < k ==>
        localPaths[i] == LocalPath(jobId, records[i].orderIndex) && cloudPaths[i] == CloudPath(jobName, records[i].name)
    {
      var localPath, path := ScanAreaPaths(jobId, jobName, records[k]);
      ghost var before := (localPaths, cloudPaths);
      localPaths := localPaths + [localPath];
      cloudPaths := cloudPaths + [path];
      forall i | 0 <= i <= k
        ensures localPaths[i] == LocalPath(jobId, records[i].orderIndex) && cloudPaths[i] == CloudPath(jobName, records[i].name)
      {
        if i < k {
          assert localPaths[i] == before.0[i] && cloudPaths[i] == before.1[i];
        }
      }
    }
  }

  /** One pass of the `generate_paths` loop: the two folders of one row. The
      local folder is `job_id/Acquire_0/order_index`; without the marker the
      bucket folder is `job_name/scan_name/Primary`; and it is never empty. */
  method ScanAreaPaths(jobId: int, jobName: string, record: ScanAreaRecord) returns (localPath: string, path: string)
    ensures localPath == LocalPath(jobId, record.orderIndex) && path == CloudPath(jobName, record.name)
    ensures localPath == IntToString(jobId) + "/" + ("Acquire_0/" + IntToString(record.orderIndex))
    ensures !Contains(jobName, Marker) && jobName != "" ==> path == jobName + "/" + record.name + "/Primary"
    ensures path != ""
  {
    var scanName, orderIndex := record.name, record.orderIndex;
    if Contains(jobName, Marker) {
      var words := Split(jobName);
      var parentFolder := JoinWords(if |words| >= 2 then words[..|words| - 2] else []);
      var subFolder := JoinWords(if |words| >= 2 then words[|words| - 2..] else words);
      path := Join(Join(parentFolder, scanName), subFolder);
    } else {
      path := Join(Join(jobName, scanName), "Primary");
      PlainCloudPath(jobName, scanName);
    }
    localPath := Join(Join(IntToString(jobId), "Acquire_0"), IntToString(orderIndex));
    LocalPathShape(jobId, orderIndex);
    CloudPathNonEmpty(jobName, scanName);
  }

  // ---------------------------------------------------------------------------
  // The naming rule

  /** Without the marker, the bucket folder is `job_name/scan_name/Primary`
      (an empty job name contributes no folder). */
  lemma PlainCloudPath(jobName: string, scanName: string)
    requires !Contains(jobName, Marker)
    ensures jobName != "" ==> CloudPath(jobName, scanName) == jobName + "/" + scanName + "/Primary"
    ensures jobName == "" && scanName != "" ==> CloudPath(jobName, scanName) == scanName + "/Primary"
  {
  }

  /** The sub folder of a name with at least two words is its last two words
      joined by one space. */
  lemma SubFolderOfLastTwo(jobName: string)
    requires |Split(jobName)| >= 2
    ensures var w := Split(jobName);
      SubFolder(jobName) == w[|w| - 2] + " " + w[|w| - 1]
  {
    var w := Split(jobName);
    var last2 := w[|w| - 2..];
    assert last2 == [w[|w| - 2], w[|w| - 1]] && last2[1..] == [w[|w| - 1]];
    assert JoinWords(last2[1..]) == w[|w| - 1];
  }

  /** With the marker, the bucket folder is `parent/scan_name/sub` where `sub` is
      the last two words of the name joined by one space and `parent` the words
      before them; with two words or fewer the parent part disappears (shown
      here for a non-empty scan name). */
  lemma ContinueCloudPath(jobName: string, scanName: string)
    requires Contains(jobName, Marker)
    ensures var w := Split(jobName);
      && |w| >= 1
      && (|w| >= 3 ==>
            CloudPath(jobName, scanName)
            == JoinWords(w[..|w| - 2]) + "/" + scanName + "/" + w[|w| - 2] + " " + w[|w| - 1])
      && (|w| == 2 && scanName != "" ==>
            CloudPath(jobName, scanName) == scanName + "/" + w[0] + " " + w[1])
      && (|w| == 1 && scanName != "" ==>
            CloudPath(jobName, scanName) == scanName + "/" + w[0])
  {
    ContainsWordHasWords(jobName, Marker);
    var n := |Split(jobName)|;
    if n >= 3 {
      ContinueManyWords(jobName, scanName);
    } else if n == 2 && scanName != "" {
      ContinueTwoWords(jobName, scanName);
    } else if n == 1 && scanName != "" {
      ContinueOneWord(jobName, scanName);
    }
  }

  /** Three or more words: `parent/scan/w[n-2] w[n-1]`. */
  lemma ContinueManyWords(jobName: string, scanName: string)
    requires Contains(jobName, Marker) && |Split(jobName)| >= 3
    ensures var w := Split(jobName);
      CloudPath(jobName, scanName) == JoinWords(w[..|w| - 2]) + "/" + scanName + "/" + w[|w| - 2] + " " + w[|w| - 1]
  {
    var w := Split(jobName);
    var parent := ParentFolder(jobName);
    assert parent == JoinWords(w[..|w| - 2]);
    JoinWordsNonEmpty(w[..|w| - 2]);
    SubFolderOfLastTwo(jobName);
    assert CloudPath(jobName, scanName) == Join(Join(parent, scanName), SubFolder(jobName));
  }

  /** Two words: the parent is empty and `join` drops it. */
  lemma ContinueTwoWords(jobName: string, scanName: string)
    requires Contains(jobName, Marker) && |Split(jobName)| == 2 && scanName != ""
    ensures var w := Split(jobName);
      CloudPath(jobName, scanName) == scanName + "/" + w[0] + " " + w[1]
  {
    var w := Split(jobName);
    assert ParentFolder(jobName) == JoinWords([]) == "";
    SubFolderOfLastTwo(jobName);
    assert CloudPath(jobName, scanName) == Join(Join("", scanName), SubFolder(jobName));
  }

  /** One word: no parent, and the sub folder is that word. */
  lemma ContinueOneWord(jobName: string, scanName: string)
    requires Contains(jobName, Marker) && |Split(jobName)| == 1 && scanName != ""
    ensures var w := Split(jobName);
      CloudPath(jobName, scanName) == scanName + "/" + w[0]
  {
    var w := Split(jobName);
    assert ParentFolder(jobName) == JoinWords([]) == "";
    assert SubFolder(jobName) == JoinWords(w) == w[0];
    assert CloudPath(jobName, scanName) == Join(Join("", scanName), SubFolder(jobName));
  }

  /** The parent and sub folders of a marked name split back into exactly the
      words of the name, in order: no word is lost, so "Continue" stays in the
      parent unless it is one of the last two words. */
  lemma ContinueFoldersKeepWords(jobName: string)
    ensures Split(ParentFolder(jobName)) + Split(SubFolder(jobName)) == Split(jobName)
  {
    var w := Split(jobName);
    if |w| >= 2 {
      SplitJoinWords(w[..|w| - 2]);
      SplitJoinWords(w[|w| - 2..]);
      assert w[..|w| - 2] + w[|w| - 2..] == w;
    } else {
      SplitJoinWords([]);
      SplitJoinWords(w);
    }
  }

  /** Every derived bucket folder is non-empty, so it never lists the whole bucket. */
  lemma CloudPathNonEmpty(jobName: string, scanName: string)
    ensures CloudPath(jobName, scanName) != ""
  {
    if Contains(jobName, Marker) {
      ContinueCloudPath(jobName, scanName);
    }
  }

  /** In `x/y` with no separator in `x`, the first separator is the one after `x`. */
  lemma FirstSeparator(x: string, y: string)
    requires '/' !in x
    ensures forall i :: 0 <= i < |x| ==> (x + "/" + y)[i] != '/'
    ensures (x + "/" + y)[|x|] == '/'
  {
    forall i | 0 <= i < |x| ensures (x + "/" + y)[i] != '/' {
      assert (x + "/" + y)[i] == x[i];
    }
  }

  /** A path `x/y` whose first part has no separator determines both parts. */
  lemma SplitAtFirstSeparator(x: string, y: string, x': string, y': string)
    requires '/' !in x && '/' !in x'
    requires x + "/" + y == x' + "/" + y'
    ensures x == x' && y == y'
  {
    var p := x + "/" + y;
    FirstSeparator(x, y);
    FirstSeparator(x', y');
    assert |x| == |x'|;
    assert x == p[..|x|] == x';
    assert y == p[|x| + 1..] == y';
  }

  lemma IntToStringHasNoSeparator(n: int)
    ensures '/' !in IntToString(n)
  {
    var s := IntToString(n);
    if n < 0 {
      forall i | 0 < i < |s| ensures s[i] != '/' {
        assert s[i] == NatToString(-n)[i - 1];
      }
    }
    assert forall i :: 0 <= i < |s| ==> s[i] != '/';
  }

  /** Scan areas land in distinct local folders unless they share both the job
      id and the order index: the local path depends on nothing else. */
  lemma LocalPathInjective(jobId: int, orderIndex: int, jobId': int, orderIndex': int)
    requires LocalPath(jobId, orderIndex) == LocalPath(jobId', orderIndex')
    ensures jobId == jobId' && orderIndex == orderIndex'
  {
    IntToStringHasNoSeparator(jobId);
    IntToStringHasNoSeparator(jobId');
    LocalPathShape(jobId, orderIndex);
    LocalPathShape(jobId', orderIndex');
    var t, t' := "Acquire_0/" + IntToString(orderIndex), "Acquire_0/" + IntToString(orderIndex');
    SplitAtFirstSeparator(IntToString(jobId), t, IntToString(jobId'), t');
    IntToStringInjective(jobId, jobId');
    AcquireTail(IntToString(orderIndex), IntToString(orderIndex'));
    IntToStringInjective(orderIndex, orderIndex');
  }

  /** The local path is the job id, a separator, and the rest. */
  lemma LocalPathShape(jobId: int, orderIndex: int)
    ensures LocalPath(jobId, orderIndex) == IntToString(jobId) + "/" + ("Acquire_0/" + IntToString(orderIndex))
  {
  }

  lemma AcquireTail(x: string, y: string)
    requires "Acquire_0/" + x == "Acquire_0/" + y
    ensures x == y
  {
    assert x == ("Acquire_0/" + x)[10..];
    assert y == ("Acquire_0/" + y)[10..];
  }

  // ---------------------------------------------------------------------------
  // Worked examples

  /** Job 42, order index 3: `42/Acquire_0/3`, whatever the job is called. */
  lemma LocalPathExample()
    ensures LocalPath(42, 3) == "42/Acquire_0/3"
  {
    assert NatToString(42) == NatToString(4) + [DigitChar(2)];
  }

  lemma ExampleWordsAreWords()
    ensures IsWord("Experiment") && IsWord("A") && IsWord("Continue") && IsWord("Batch") && IsWord("2")
  {
  }

  lemma ExampleJoin()
    ensures JoinWords(["Experiment", "A", "Continue", "Batch", "2"]) == "Experiment A Continue Batch 2"
  {
    ExampleJoinTail();
    var w: seq<string> := ["Experiment", "A", "Continue", "Batch", "2"];
    assert w[1..] == ["A", "Continue", "Batch", "2"];
  }

  lemma ExampleJoinTail()
    ensures JoinWords(["A", "Continue", "Batch", "2"]) == "A Continue Batch 2"
  {
    ExampleSubJoin();
    var w: seq<string> := ["A", "Continue", "Batch", "2"];
    assert w[1..] == ["Continue", "Batch", "2"];
    assert w[1..][1..] == ["Batch", "2"];
  }

  lemma ExampleWords()
    ensures Split("Experiment A Continue Batch 2") == ["Experiment", "A", "Continue", "Batch", "2"]
  {
    ExampleWordsAreWords();
    ExampleJoin();
    SplitJoinWords(["Experiment", "A", "Continue", "Batch", "2"]);
  }

  // The literal is passed through a parameter so that the verifier does not
  // unfold the string functions on it character by character.

  lemma ExampleMarked(name: string)
    requires name == "Experiment A Continue Batch 2"
    ensures Contains(name, Marker)
  {
    assert OccursAt(name, Marker, 13);
  }

  lemma ExampleParentJoin()
    ensures JoinWords(["Experiment", "A", "Continue"]) == "Experiment A Continue"
  {
  }

  lemma ExampleSubJoin()
    ensures JoinWords(["Batch", "2"]) == "Batch 2"
  {
  }

  lemma ExampleParentWords()
    ensures ParentFolder("Experiment A Continue Batch 2") == "Experiment A Continue"
  {
    ExampleWords();
    ExampleParentJoin();
    assert ["Experiment", "A", "Continue", "Batch", "2"][..3] == ["Experiment", "A", "Continue"];
  }

  lemma ExampleSubWords()
    ensures SubFolder("Experiment A Continue Batch 2") == "Batch 2"
  {
    ExampleWords();
    ExampleSubJoin();
    assert ["Experiment", "A", "Continue", "Batch", "2"][3..] == ["Batch", "2"];
  }

  lemma ExampleParent(name: string)
    requires name == "Experiment A Continue Batch 2"
    ensures ParentFolder(name) == "Experiment A Continue"
  {
    ExampleParentWords();
  }

  lemma ExampleSub(name: string)
    requires name == "Experiment A Continue Batch 2"
    ensures SubFolder(name) == "Batch 2"
  {
    ExampleSubWords();
  }

  /** "Experiment A Continue Batch 2" with scan "ScanX" keeps "Continue" in the
      parent folder: `Experiment A Continue/ScanX/Batch 2`. */
  lemma ContinueExample(name: string, scan: string)
    requires name == "Experiment A Continue Batch 2" && scan == "ScanX"
    ensures CloudPath(name, scan) == "Experiment A Continue/ScanX/Batch 2"
  {
    ExampleMarked(name);
    ExampleParent(name);
    ExampleSub(name);
    ExampleFolders();
  }

  lemma ExampleFolders()
    ensures Join(Join("Experiment A Continue", "ScanX"), "Batch 2") == "Experiment A Continue/ScanX/Batch 2"
  {
  }

  /** Without its first character, `sub` cannot occur in a string. */
  lemma NotContainsWithoutFirst(s: string, sub: string)
    requires |sub| > 0 && sub[0] !in s
    ensures !Contains(s, sub)
  {
    forall i | 0 <= i <= |s| ensures !OccursAt(s, sub, i) {
      if i + |sub| <= |s| {
        assert s[i] in s;
        assert s[i..i + |sub|][0] == s[i] != sub[0];
      }
    }
  }

  /** "Experiment A" has no marker: `Experiment A/ScanX/Primary`. */
  lemma PlainExample()
    ensures CloudPath("Experiment A", "ScanX") == "Experiment A/ScanX/Primary"
  {
    assert 'C' !in "Experiment A";
    NotContainsWithoutFirst("Experiment A", Marker);
  }

  /** A one-word marked name has no parent folder: "Continue" gives `ScanX/Continue`. */
  lemma ShortNameExample(name: string, scan: string)
    requires name == "Continue" && scan == "ScanX"
    ensures CloudPath(name, scan) == "ScanX/Continue"
  {
    assert OccursAt(name, Marker, 0);
    assert IsWord(name);
    SplitWord(name);
    assert ParentFolder(name) == "" && SubFolder(name) == name;
    ShortNameFolders();
  }

  lemma ShortNameFolders()
    ensures Join(Join("", "ScanX"), "Continue") == "ScanX/Continue"
  {
  }
}
