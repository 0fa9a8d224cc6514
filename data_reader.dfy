/**
 * The metadata and lookup logic of `lcms_app/data_reader.py`: the `acq.txt` line parser of
 * `SampleData._parse_acq_method`, `is_c4_method`, the `.D` folder discovery of
 * `list_d_folders`, and the nearest-index lookups of `get_uv_at_wavelength` and
 * `get_ms_scan`. File reading is replaced by its result: the lines of `acq.txt`, a
 * directory tree, and the arrays a loaded sample holds.
 */
module DataReader {
  import opened Wrappers
  import opened Sorting
  import opened Text

  // ---------------------------------------------------------------------------------------
  // acq.txt parsing
  // ---------------------------------------------------------------------------------------

  /** What the parser has collected so far: `acq_info` and `acq_method`. */
  datatype AcqState = AcqState(info: map<string, string>, acqMethod: Option<string>)

  /** Index of the first ':' in s, or |s| when there is none. */
  function FirstColon(s: string): (i: nat)
    ensures i <= |s|
    ensures i < |s| <==> ':' in s
    ensures i < |s| ==> s[i] == ':'
    ensures forall k :: 0 <= k < i ==> s[k] != ':'
  {
    if s == [] then 0
    else if s[0] == ':' then 0
    else
      assert s == [s[0]] + s[1..];
      1 + FirstColon(s[1..])
  }

  /** The keys whose value also becomes `acq_method`. */
  predicate IsMethodKey(key: string)
  {
    StartsWith(Lower(key), "acq. method") || Lower(key) == "acq method"
  }

  /**
   * The key and value a raw line holds: None when the stripped line is blank or has no
   * colon; otherwise the stripped parts before and after its first colon.
   */
  function Entry(raw: string): Option<(string, string)>
  {
    Split(Strip(raw))
  }

  /** The key and value of a stripped line. */
  function Split(line: string): Option<(string, string)>
  {
    if line == [] || ':' !in line then None
    else
      var i := FirstColon(line);
      Some((Strip(line[..i]), Strip(line[i + 1..])))
  }

  /** The effect of one entry: a non-empty value is stored, a method key sets the method. */
  function Apply(st: AcqState, e: Option<(string, string)>): AcqState
  {
    match e
    case None => st
    case Some((key, val)) =>
      AcqState(if val != [] then st.info[key := val] else st.info,
               if IsMethodKey(key) then Some(val) else st.acqMethod)
  }

  /** One iteration of the loop over `text.splitlines()`. */
  function ParseLine(st: AcqState, raw: string): AcqState
  {
    Apply(st, Entry(raw))
  }

  /** The whole loop, line by line from the first. */
  function ParseLines(st: AcqState, lines: seq<string>): AcqState
  {
    if lines == [] then st
    else ParseLine(ParseLines(st, lines[..|lines| - 1]), lines[|lines| - 1])
  }

  /** The loop after one more line. */
  lemma ParseLinesNext(st: AcqState, lines: seq<string>, n: nat)
    requires n < |lines|
    ensures ParseLines(st, lines[..n + 1]) == ParseLine(ParseLines(st, lines[..n]), lines[n])
  {
    assert lines[..n + 1][..n] == lines[..n];
  }

  /** A line the parser skips: blank after stripping, or without a colon. */
  predicate Skipped(raw: string)
  {
    Entry(raw).None?
  }

  /** The lines that are not skipped, in order. */
  function Meaningful(lines: seq<string>): (r: seq<string>)
    ensures |r| <= |lines|
    ensures forall k :: 0 <= k < |r| ==> !Skipped(r[k])
  {
    if lines == [] then []
    else Meaningful(lines[..|lines| - 1]) + (if Skipped(lines[|lines| - 1]) then [] else [lines[|lines| - 1]])
  }

  /** Blank and colon-less lines have no effect anywhere in the file. */
  lemma {:induction false} SkippedLinesIgnored(st: AcqState, lines: seq<string>)
    ensures ParseLines(st, lines) == ParseLines(st, Meaningful(lines))
  {
    if lines != [] {
      var init := lines[..|lines| - 1];
      var last := lines[|lines| - 1];
      SkippedLinesIgnored(st, init);
      var m := Meaningful(lines);
      if Skipped(last) {
        assert m == Meaningful(init);
        assert ParseLines(st, lines) == ParseLines(st, init);
      } else {
        assert m == Meaningful(init) + [last];
        assert m[..|m| - 1] == Meaningful(init);
        assert ParseLines(st, m) == ParseLine(ParseLines(st, Meaningful(init)), last);
      }
    }
  }

  /**
   * A line `key: value`, with any whitespace around the line and on either side of the colon,
   * is split at its first colon and both parts are stripped, so the value may contain colons.
   * A non-empty value is stored under the key, an empty one is not, and a method key sets
   * `acq_method` even to the empty value.
   */
  lemma KeyValueLine(st: AcqState, lead: string, key: string, gap1: string, gap2: string, val: string,
                     trail: string)
    requires Blank(lead) && Blank(gap1) && Blank(gap2) && Blank(trail)
    requires NoOuterSpace(key) && NoOuterSpace(val) && ':' !in key
    ensures ParseLine(st, lead + key + gap1 + ":" + gap2 + val + trail).info
         == (if val != [] then st.info[key := val] else st.info)
    ensures ParseLine(st, lead + key + gap1 + ":" + gap2 + val + trail).acqMethod
         == (if IsMethodKey(key) then Some(val) else st.acqMethod)
  {
    var raw := lead + key + gap1 + ":" + gap2 + val + trail;
    if key == [] {
      assert raw == (lead + gap1) + key + [] + ":" + gap2 + val + trail;
      BlankConcat(lead, gap1);
      PaddedEntry(lead + gap1, key, [], gap2, val, trail);
    } else {
      PaddedEntry(lead, key, gap1, gap2, val, trail);
    }
    ApplyEntry(st, key, val);
  }

  lemma ApplyEntry(st: AcqState, key: string, val: string)
    ensures Apply(st, Some((key, val))).info == (if val != [] then st.info[key := val] else st.info)
    ensures Apply(st, Some((key, val))).acqMethod == (if IsMethodKey(key) then Some(val) else st.acqMethod)
  {
  }

  /** Stripping the padded line leaves it from the key (or the colon) to the value (or the colon). */
  lemma PaddedEntry(lead: string, key: string, gap1: string, gap2: string, val: string, trail: string)
    requires Blank(lead) && Blank(gap1) && Blank(gap2) && Blank(trail)
    requires NoOuterSpace(key) && NoOuterSpace(val) && ':' !in key
    requires key != [] || gap1 == []
    ensures Entry(lead + key + gap1 + ":" + gap2 + val + trail) == Some((key, val))
  {
    var raw := lead + key + gap1 + ":" + gap2 + val + trail;
    if val != [] {
      var line := key + gap1 + ":" + gap2 + val;
      assert line[0] == if key != [] then key[0] else ':';
      assert line[|line| - 1] == val[|val| - 1];
      assert raw == lead + line + trail;
      StripPadded(lead, line, trail);
      SplitPadded(key, gap1, gap2, val);
    } else {
      var line := key + gap1 + ":";
      assert line[0] == if key != [] then key[0] else ':';
      assert raw == lead + line + (gap2 + trail);
      BlankConcat(gap2, trail);
      StripPadded(lead, line, gap2 + trail);
      assert line == key + gap1 + ":" + [] + [];
      SplitPadded(key, gap1, [], []);
    }
  }

  /** A stripped line splits at its first colon into its stripped key and value. */
  lemma SplitPadded(key: string, gap1: string, gap2: string, val: string)
    requires Blank(gap1) && Blank(gap2)
    requires NoOuterSpace(key) && NoOuterSpace(val) && ':' !in key
    ensures Split(key + gap1 + ":" + gap2 + val) == Some((key, val))
  {
    var head, tail := key + gap1, gap2 + val;
    assert key + gap1 + ":" + gap2 + val == head + ":" + tail;
    ColonAfterGap(key, gap1, tail);
    SplitAtColon(head, tail);
    StripGapAfter(key, gap1);
    StripGapBefore(gap2, val);
  }

  /** A line whose first colon ends `head` splits into the stripped `head` and `tail`. */
  lemma SplitAtColon(head: string, tail: string)
    requires FirstColon(head + ":" + tail) == |head|
    ensures Split(head + ":" + tail) == Some((Strip(head), Strip(tail)))
  {
    var line := head + ":" + tail;
    assert line[..|head|] == head;
    assert line[|head| + 1..] == tail;
  }

  /** The first colon of `key + gap + ":" + rest` is the one after the gap. */
  lemma ColonAfterGap(key: string, gap: string, rest: string)
    requires Blank(gap) && ':' !in key
    ensures FirstColon((key + gap) + ":" + rest) == |key| + |gap|
  {
    var line := (key + gap) + ":" + rest;
    var i := |key| + |gap|;
    forall k | 0 <= k < i ensures line[k] != ':' {
      if k < |key| {
        assert line[k] == key[k] && key[k] in key;
      } else {
        assert line[k] == gap[k - |key|];
      }
    }
    assert line[i] == ':';
  }

  lemma StripGapAfter(key: string, gap: string)
    requires Blank(gap) && NoOuterSpace(key)
    ensures Strip(key + gap) == key
  {
    if key == [] {
      StripBlank(gap);
      assert key + gap == gap;
    } else {
      StripPadded([], key, gap);
      assert [] + key + gap == key + gap;
    }
  }

  lemma StripGapBefore(gap: string, val: string)
    requires Blank(gap) && NoOuterSpace(val)
    ensures Strip(gap + val) == val
  {
    if val == [] {
      StripBlank(gap);
      assert gap + val == gap;
    } else {
      StripPadded(gap, val, []);
      assert gap + val + [] == gap + val;
    }
  }


  /** The line stores `value` under `key`. */
  predicate Stores(raw: string, key: string, value: string)
  {
    Entry(raw) == Some((key, value)) && value != []
  }

  /** The line stores some value under `key`. */
  predicate StoresKey(raw: string, key: string)
  {
    Entry(raw).Some? && Entry(raw).value.0 == key && Entry(raw).value.1 != []
  }

  /** The last line that stores a value under a key decides that key's value. */
  lemma {:induction false} LastWins(st: AcqState, lines: seq<string>, j: int, key: string, value: string)
    requires 0 <= j < |lines| && Stores(lines[j], key, value)
    requires forall m :: j < m < |lines| ==> !StoresKey(lines[m], key)
    ensures key in ParseLines(st, lines).info && ParseLines(st, lines).info[key] == value
  {
    var init := lines[..|lines| - 1];
    var last := lines[|lines| - 1];
    var prev := ParseLines(st, init);
    assert ParseLines(st, lines) == Apply(prev, Entry(last));
    if j == |lines| - 1 {
      ApplyEntry(prev, key, value);
    } else {
      forall m | j < m < |init| ensures !StoresKey(init[m], key) {
        assert init[m] == lines[m];
      }
      assert init[j] == lines[j];
      LastWins(st, init, j, key, value);
      assert !StoresKey(last, key);
      ApplyOther(prev, Entry(last), key);
    }
  }

  /** An entry that stores nothing under key leaves key's value alone. */
  lemma ApplyOther(st: AcqState, e: Option<(string, string)>, key: string)
    requires !(e.Some? && e.value.0 == key && e.value.1 != [])
    requires key in st.info
    ensures key in Apply(st, e).info && Apply(st, e).info[key] == st.info[key]
  {
  }

  /** Every stored key is free of colons and every stored value is non-empty. */
  predicate WellFormed(info: map<string, string>)
  {
    forall k :: k in info ==> ':' !in k && info[k] != []
  }

  lemma {:induction false} ParseKeepsWellFormed(st: AcqState, lines: seq<string>)
    requires WellFormed(st.info)
    ensures WellFormed(ParseLines(st, lines).info)
  {
    if lines != [] {
      var prev := ParseLines(st, lines[..|lines| - 1]);
      ParseKeepsWellFormed(st, lines[..|lines| - 1]);
      var line := Strip(lines[|lines| - 1]);
      if line != [] && ':' in line {
        var i := FirstColon(line);
        var key := Strip(line[..i]);
        var pre := TrimLeft(line[..i], IsSpace);
        assert forall c :: c in key ==> c in pre;
        assert forall c :: c in pre ==> c in line[..i];
      }
    }
  }

  /** `is_c4_method`: the method name, upper-cased, starts with "C4". */
  function IsC4Method(acqMethod: Option<string>): (r: bool)
    ensures r <==> acqMethod.Some? && |acqMethod.value| >= 2
                   && (acqMethod.value[0] == 'C' || acqMethod.value[0] == 'c') && acqMethod.value[1] == '4'
  {
    acqMethod.Some? && StartsWith(Upper(acqMethod.value), "C4")
  }

  /** The part of a loaded sample that holds its acquisition metadata. */
  class SampleData {
    var folderPath: string
    var acqMethod: Option<string>
    var acqInfo: map<string, string>
    var loaded: bool
    var error: Option<string>

    constructor (folderPath: string)
      ensures this.folderPath == folderPath
      ensures acqMethod == None && acqInfo == map[] && !loaded && error == None
    {
      this.folderPath := folderPath;
      acqMethod := None;
      acqInfo := map[];
      loaded := false;
      error := None;
    }

    /**
     * `_parse_acq_method`, given the lines of `acq.txt`, or None when the file is missing
     * or cannot be decoded (both leave the sample as it was).
     */
    method ParseAcqMethod(text: Option<seq<string>>)
      modifies this
      ensures text.None? ==> acqInfo == old(acqInfo) && acqMethod == old(acqMethod)
      ensures text.Some? ==>
        AcqState(acqInfo, acqMethod) == ParseLines(AcqState(old(acqInfo), old(acqMethod)), text.value)
      ensures folderPath == old(folderPath) && loaded == old(loaded) && error == old(error)
    {
      if text.None? {
        return;
      }
      var lines := text.value;
      ghost var start := AcqState(acqInfo, acqMethod);
      var n := 0;
      while n < |lines|
        invariant 0 <= n <= |lines|
        invariant AcqState(acqInfo, acqMethod) == ParseLines(start, lines[..n])
        invariant folderPath == old(folderPath) && loaded == old(loaded) && error == old(error)
      {
        ParseLinesNext(start, lines, n);
        ParseLineInPlace(lines[n]);
        n := n + 1;
      }
      assert lines[..n] == lines;
    }

    /** The body of the loop over the lines of `acq.txt`, for one raw line. */
    method ParseLineInPlace(raw: string)
      modifies this
      ensures AcqState(acqInfo, acqMethod) == ParseLine(AcqState(old(acqInfo), old(acqMethod)), raw)
      ensures folderPath == old(folderPath) && loaded == old(loaded) && error == old(error)
    {
      ghost var before := AcqState(acqInfo, acqMethod);
      var line := Strip(raw);
      if line != [] && ':' in line {
        var i := FirstColon(line);
        var key := Strip(line[..i]);
        var val := Strip(line[i + 1..]);
        assert Entry(raw) == Some((key, val));
        ApplyEntry(before, key, val);
        if val != [] {
          acqInfo := acqInfo[key := val];
        }
        if StartsWith(Lower(key), "acq. method") || Lower(key) == "acq method" {
          acqMethod := Some(val);
        }
      } else {
        assert Entry(raw) == None;
      }
    }
  }

  // ---------------------------------------------------------------------------------------
  // list_d_folders
  // ---------------------------------------------------------------------------------------

  /**
   * A directory as `os.walk` sees it: its name, the modification time `stat` reports
   * (None when `stat` raises), and its sub-directories in listing order.
   */
  datatype Folder = Folder(name: string, mtime: Option<real>, children: seq<Folder>)

  /** One reported `.D` folder. */
  datatype FolderInfo = FolderInfo(path: string, name: string, date: real)

  /** `d.endswith(".D") or d.endswith(".d")`. */
  predicate IsDName(name: string)
  {
    EndsWith(name, ".D") || EndsWith(name, ".d")
  }

  /** The search filter: empty, or a case-insensitive substring of the name. */
  predicate MatchesSearch(name: string, pattern: string)
  {
    pattern == [] || Contains(Lower(name), Lower(pattern))
  }

  /** `Path(root) / name`. */
  function Join(root: string, name: string): string
  {
    root + "/" + name
  }

  /** Whether a sub-directory is reported from its parent listing. */
  predicate Reported(d: Folder, pattern: string)
  {
    IsDName(d.name) && MatchesSearch(d.name, pattern) && d.mtime.Some?
  }

  /** The folders the first loop appends while visiting `root`, whose sub-directories are `dirs`. */
  function FoundIn(root: string, dirs: seq<Folder>, pattern: string): (r: seq<FolderInfo>)
    ensures forall k :: 0 <= k < |r| ==> IsDName(r[k].name) && MatchesSearch(r[k].name, pattern)
  {
    if dirs == [] then []
    else
      var d := dirs[|dirs| - 1];
      FoundIn(root, dirs[..|dirs| - 1], pattern)
        + (if Reported(d, pattern) then [FolderInfo(Join(root, d.name), d.name, d.mtime.value)] else [])
  }

  /** `dirs[:] = [d for d in dirs if not .D]`. */
  function Prune(dirs: seq<Folder>): seq<Folder>
  {
    if dirs == [] then []
    else (if IsDName(dirs[0].name) then [] else [dirs[0]]) + Prune(dirs[1..])
  }

  /** What survives pruning is a sub-directory of the listing, and not a `.D` one. */
  lemma {:induction false} PruneKeeps(dirs: seq<Folder>)
    ensures forall k :: 0 <= k < |Prune(dirs)| ==> Prune(dirs)[k] in dirs && !IsDName(Prune(dirs)[k].name)
  {
    if dirs != [] {
      PruneKeeps(dirs[1..]);
    }
  }

  /**
   * What the walk from `root` (the directory `d`) collects, in the order of `os.walk`
   * top-down: the `.D` folders listed in `d`, then the walks of the sub-directories left
   * after pruning.
   */
  function Walk(root: string, d: Folder, pattern: string): seq<FolderInfo>
    decreases d, 1
  {
    FoundIn(root, d.children, pattern) + WalkPruned(root, d, |Prune(d.children)|, pattern)
  }

  /** The walks of the first n sub-directories of d that survive pruning. */
  function WalkPruned(root: string, d: Folder, n: nat, pattern: string): seq<FolderInfo>
    requires n <= |Prune(d.children)|
    decreases d, 0, n
  {
    if n == 0 then []
    else
      PruneKeeps(d.children);
      var c := Prune(d.children)[n - 1];
      WalkPruned(root, d, n - 1, pattern) + Walk(Join(root, c.name), c, pattern)
  }

  /** Folders are reported newest first. */
  predicate NewerFirst(a: FolderInfo, b: FolderInfo)
  {
    a.date >= b.date
  }

  /** Every reported folder has a `.D` name that matches the search. */
  lemma {:induction false} WalkReportsDFolders(root: string, d: Folder, pattern: string)
    ensures forall k :: 0 <= k < |Walk(root, d, pattern)| ==>
      IsDName(Walk(root, d, pattern)[k].name) && MatchesSearch(Walk(root, d, pattern)[k].name, pattern)
    decreases d, 1
  {
    WalkPrunedReportsDFolders(root, d, |Prune(d.children)|, pattern);
  }

  lemma {:induction false} WalkPrunedReportsDFolders(root: string, d: Folder, n: nat, pattern: string)
    requires n <= |Prune(d.children)|
    ensures forall k :: 0 <= k < |WalkPruned(root, d, n, pattern)| ==>
      IsDName(WalkPruned(root, d, n, pattern)[k].name)
      && MatchesSearch(WalkPruned(root, d, n, pattern)[k].name, pattern)
    decreases d, 0, n
  {
    if n > 0 {
      WalkPrunedReportsDFolders(root, d, n - 1, pattern);
      PruneKeeps(d.children);
      var c := Prune(d.children)[n - 1];
      WalkReportsDFolders(Join(root, c.name), c, pattern);
    }
  }

  /**
   * e is d with, at any depth, possibly different contents inside its `.D` folders:
   * every other name, time and listing is the same.
   */
  predicate SameOutsideD(e: Folder, d: Folder)
    decreases d, 0
  {
    e.name == d.name && e.mtime == d.mtime && |e.children| == |d.children|
    && forall k :: 0 <= k < |d.children| ==> SameChild(e.children[k], d.children[k])
  }

  /** One entry of two such listings: same name and time, and the same below unless `.D`. */
  predicate SameChild(e: Folder, d: Folder)
    decreases d, 1
  {
    e.name == d.name && e.mtime == d.mtime && (!IsDName(d.name) ==> SameOutsideD(e, d))
  }

  /** Listings that agree on names and times report the same folders from the first loop. */
  lemma {:induction false} FoundInSameListing(root: string, a: seq<Folder>, b: seq<Folder>, pattern: string)
    requires |a| == |b|
    requires forall k :: 0 <= k < |a| ==> a[k].name == b[k].name && a[k].mtime == b[k].mtime
    ensures FoundIn(root, a, pattern) == FoundIn(root, b, pattern)
  {
    if a != [] {
      FoundInSameListing(root, a[..|a| - 1], b[..|b| - 1], pattern);
    }
  }

  /** Pruning two such listings leaves two such listings without `.D` entries. */
  lemma {:induction false} PruneSameOutsideD(a: seq<Folder>, b: seq<Folder>)
    requires |a| == |b|
    requires forall k :: 0 <= k < |a| ==> SameChild(b[k], a[k])
    ensures |Prune(b)| == |Prune(a)|
    ensures forall k :: 0 <= k < |Prune(a)| ==> SameOutsideD(Prune(b)[k], Prune(a)[k])
  {
    if a != [] {
      PruneSameOutsideD(a[1..], b[1..]);
      assert SameChild(b[0], a[0]);
    }
  }

  /**
   * The walk never descends into a `.D` folder: whatever the `.D` folders below contain,
   * the result is the same.
   */
  lemma {:induction false} WalkSkipsDContents(root: string, e: Folder, d: Folder, pattern: string)
    requires SameOutsideD(e, d)
    ensures Walk(root, e, pattern) == Walk(root, d, pattern)
    decreases d, 1
  {
    forall k | 0 <= k < |e.children|
      ensures e.children[k].name == d.children[k].name && e.children[k].mtime == d.children[k].mtime
    {
      assert SameChild(e.children[k], d.children[k]);
    }
    FoundInSameListing(root, e.children, d.children, pattern);
    PruneSameOutsideD(d.children, e.children);
    WalkPrunedSkipsDContents(root, e, d, |Prune(d.children)|, pattern);
  }

  lemma {:induction false} WalkPrunedSkipsDContents(root: string, e: Folder, d: Folder, n: nat, pattern: string)
    requires n <= |Prune(d.children)| == |Prune(e.children)|
    requires forall k :: 0 <= k < |Prune(d.children)| ==> SameOutsideD(Prune(e.children)[k], Prune(d.children)[k])
    ensures WalkPruned(root, e, n, pattern) == WalkPruned(root, d, n, pattern)
    decreases d, 0, n
  {
    if n > 0 {
      WalkPrunedSkipsDContents(root, e, d, n - 1, pattern);
      PruneKeeps(d.children);
      var c := Prune(d.children)[n - 1];
      var rc := Prune(e.children)[n - 1];
      assert SameOutsideD(rc, c);
      WalkSkipsDContents(Join(root, c.name), rc, c, pattern);
      WalkPrunedStep(root, e, d, n, pattern);
    }
  }

  /** One more sub-directory on both sides keeps two equal walks equal. */
  lemma WalkPrunedStep(root: string, e: Folder, d: Folder, n: nat, pattern: string)
    requires 0 < n <= |Prune(d.children)| && n <= |Prune(e.children)|
    requires WalkPruned(root, e, n - 1, pattern) == WalkPruned(root, d, n - 1, pattern)
    requires Prune(e.children)[n - 1].name == Prune(d.children)[n - 1].name
    requires Walk(Join(root, Prune(d.children)[n - 1].name), Prune(e.children)[n - 1], pattern)
          == Walk(Join(root, Prune(d.children)[n - 1].name), Prune(d.children)[n - 1], pattern)
    ensures WalkPruned(root, e, n, pattern) == WalkPruned(root, d, n, pattern)
  {
  }

  /** The visit of one directory: the loop body on its listing, then the walks below it. */
  method VisitFolder(root: string, d: Folder, pattern: string) returns (found: seq<FolderInfo>)
    ensures found == Walk(root, d, pattern)
    decreases d, 1
  {
    var listed := ListedDFolders(root, d.children, pattern);
    var below := VisitSubfolders(root, d, pattern);
    found := listed + below;
  }

  /** The walks of the sub-directories of one directory left after pruning, in listing order. */
  method VisitSubfolders(root: string, d: Folder, pattern: string) returns (found: seq<FolderInfo>)
    ensures found == WalkPruned(root, d, |Prune(d.children)|, pattern)
    decreases d, 0
  {
    var dirs := Prune(d.children);
    found := [];
    var j := 0;
    while j < |dirs|
      invariant 0 <= j <= |dirs|
      invariant found == WalkPruned(root, d, j, pattern)
    {
      var dir := dirs[j];
      WalkPrunedNext(root, d, j, pattern);
      var sub := VisitFolder(Join(root, dir.name), dir, pattern);
      found := found + sub;
      j := j + 1;
    }
  }

  /** One more surviving sub-directory adds its own walk. */
  lemma WalkPrunedNext(root: string, d: Folder, j: nat, pattern: string)
    requires j < |Prune(d.children)|
    ensures Prune(d.children)[j] in d.children
    ensures WalkPruned(root, d, j + 1, pattern)
         == WalkPruned(root, d, j, pattern) + Walk(Join(root, Prune(d.children)[j].name), Prune(d.children)[j], pattern)
  {
    PruneKeeps(d.children);
  }

  /** The loop over the `.D` names of one listing, appending those that match and can be stat'ed. */
  method ListedDFolders(root: string, dirs: seq<Folder>, pattern: string) returns (found: seq<FolderInfo>)
    ensures found == FoundIn(root, dirs, pattern)
  {
    found := [];
    var i := 0;
    while i < |dirs|
      invariant 0 <= i <= |dirs|
      invariant found == FoundIn(root, dirs[..i], pattern)
    {
      assert dirs[..i + 1][..i] == dirs[..i];
      var dir := dirs[i];
      if IsDName(dir.name) {
        if pattern == [] || Contains(Lower(dir.name), Lower(pattern)) {
          if dir.mtime.Some? {
            found := found + [FolderInfo(Join(root, dir.name), dir.name, dir.mtime.value)];
          }
        }
      }
      i := i + 1;
    }
    assert dirs[..i] == dirs;
  }

  /**
   * `list_d_folders`: None when the base path does not exist; otherwise the `.D` folders
   * the walk finds, newest first.
   */
  method ListDFolders(basePath: string, base: Option<Folder>, pattern: string) returns (folders: seq<FolderInfo>)
    ensures base.None? ==> folders == []
    ensures base.Some? ==> multiset(folders) == multiset(Walk(basePath, base.value, pattern))
    ensures Sorted(folders, NewerFirst)
    ensures forall k :: 0 <= k < |folders| ==> IsDName(folders[k].name) && MatchesSearch(folders[k].name, pattern)
  {
    if base.None? {
      return [];
    }
    var found := VisitFolder(basePath, base.value, pattern);
    folders := SortBy(found, NewerFirst);
    WalkReportsDFolders(basePath, base.value, pattern);
    forall k | 0 <= k < |folders|
      ensures IsDName(folders[k].name) && MatchesSearch(folders[k].name, pattern)
    {
      assert folders[k] in multiset(found);
    }
  }

  // ---------------------------------------------------------------------------------------
  // Nearest-index lookups
  // ---------------------------------------------------------------------------------------

  function Dist(a: real, b: real): real
  {
    if a >= b then a - b else b - a
  }

  /** i is `np.argmin(np.abs(xs - target))`: a nearest index, and the first of them. */
  predicate IsFirstNearest(xs: seq<real>, target: real, i: int)
  {
    && 0 <= i < |xs|
    && (forall j :: 0 <= j < |xs| ==> Dist(xs[i], target) <= Dist(xs[j], target))
    && (forall j :: 0 <= j < i ==> Dist(xs[j], target) > Dist(xs[i], target))
  }

  /** `np.argmin(np.abs(xs - target))`. */
  function FirstNearest(xs: seq<real>, target: real): (i: nat)
    requires |xs| > 0
    ensures IsFirstNearest(xs, target, i)
  {
    if |xs| == 1 then 0
    else
      var i := FirstNearest(xs[..|xs| - 1], target);
      if Dist(xs[|xs| - 1], target) < Dist(xs[i], target) then |xs| - 1 else i
  }

  /** The first nearest index is determined by its defining property. */
  lemma FirstNearestUnique(xs: seq<real>, target: real, i: int, j: int)
    requires IsFirstNearest(xs, target, i) && IsFirstNearest(xs, target, j)
    ensures i == j
  {
    assert Dist(xs[i], target) <= Dist(xs[j], target);
    assert Dist(xs[j], target) <= Dist(xs[i], target);
  }

  /** The shapes a sample's UV array comes in: one column per wavelength, one trace, or more dimensions. */
  datatype UvData = Columns(columns: seq<seq<real>>) | Trace(values: seq<real>) | Higher(values: seq<real>)

  /**
   * `get_uv_at_wavelength(wavelength, tolerance)` on the sample's `uv_wavelengths` and
   * `uv_data`. An empty wavelength list makes `np.argmin` raise `ValueError`, which the
   * method catches, returning the first column.
   */
  function UvAtWavelength(wavelengths: Option<seq<real>>, data: Option<UvData>, wavelength: real, tolerance: real)
    : (r: Option<seq<real>>)
    requires wavelengths.Some? && data.Some? && data.value.Columns? ==>
      |wavelengths.value| <= |data.value.columns| && (wavelengths.value == [] ==> data.value.columns != [])
    ensures wavelengths.None? || data.None? ==> r.None?
    ensures wavelengths.Some? && wavelengths.value != [] && data.Some?
         && (forall j :: 0 <= j < |wavelengths.value| ==> Dist(wavelengths.value[j], wavelength) > tolerance)
         ==> r.None?
    ensures wavelengths.Some? && data.Some? && data.value.Columns? && r.Some? ==>
      exists j :: 0 <= j < |data.value.columns| && r.value == data.value.columns[j]
    ensures wavelengths.Some? && wavelengths.value != [] && data.Some? && data.value.Columns?
         && (exists j :: 0 <= j < |wavelengths.value| && Dist(wavelengths.value[j], wavelength) <= tolerance)
         ==> r == Some(data.value.columns[FirstNearest(wavelengths.value, wavelength)])
    ensures wavelengths.Some? && wavelengths.value != [] && data.Some? && data.value.Trace?
         && (exists j :: 0 <= j < |wavelengths.value| && Dist(wavelengths.value[j], wavelength) <= tolerance)
         ==> r == Some(data.value.values)
    ensures wavelengths.Some? && wavelengths.value != [] && data.Some? && data.value.Higher? ==> r.None?
    ensures wavelengths.Some? && wavelengths.value == [] && data.Some? && data.value.Columns?
         ==> r == Some(data.value.columns[0])
    ensures wavelengths.Some? && wavelengths.value == [] && data.Some? && !data.value.Columns?
         ==> r == Some(data.value.values)
  {
    if wavelengths.None? || data.None? then None
    else if wavelengths.value == [] then
      match data.value
      case Columns(columns) => Some(columns[0])
      case Trace(values) => Some(values)
      case Higher(values) => Some(values)
    else
      var idx := FirstNearest(wavelengths.value, wavelength);
      if Dist(wavelengths.value[idx], wavelength) > tolerance then None
      else
        match data.value
        case Columns(columns) => Some(columns[idx])
        case Trace(values) => Some(values)
        case Higher(_) => None
  }

  /** An MS scan as the loader stores it: m/z and intensity arrays, a two-column array, or neither. */
  datatype Scan = Spectrum(mz: seq<real>, intensity: seq<real>) | Pairs(rows: seq<(real, real)>) | Unreadable

  /** `get_ms_scan(time)` on the sample's `ms_times` and `ms_scans`. */
  function MsScanAt(times: Option<seq<real>>, scans: Option<seq<Option<Scan>>>, time: real)
    : (r: Option<(seq<real>, seq<real>)>)
    requires times.Some? && scans.Some? ==> times.value != [] && |scans.value| >= |times.value|
    ensures times.None? || scans.None? ==> r.None?
    ensures times.Some? && scans.Some? ==>
      var scan := scans.value[FirstNearest(times.value, time)];
      && (r.Some? <==> scan.Some? && !scan.value.Unreadable?)
      && (scan.Some? && scan.value.Spectrum? ==> r == Some((scan.value.mz, scan.value.intensity)))
      && (scan.Some? && scan.value.Pairs? ==>
            r.Some? && |r.value.0| == |r.value.1| == |scan.value.rows|
            && forall k :: 0 <= k < |scan.value.rows| ==> (r.value.0[k], r.value.1[k]) == scan.value.rows[k])
  {
    if times.None? || scans.None? then None
    else
      var idx := FirstNearest(times.value, time);
      match scans.value[idx]
      case None => None
      case Some(scan) =>
        match scan
        case Spectrum(mz, intensity) => Some((mz, intensity))
        case Pairs(rows) =>
          Some((seq(|rows|, k requires 0 <= k < |rows| => rows[k].0),
                seq(|rows|, k requires 0 <= k < |rows| => rows[k].1)))
        case Unreadable => None
  }
}
