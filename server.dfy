/**
 * The request-side helpers of `backend/server.py`: `_coerce_bool`, `_sanitize_filename`,
 * the export format and DPI validation, the default deconvolution window of
 * `_detect_deconvolution_window_for_sample`, the filtering and ordering at the end of
 * `_run_default_report_deconvolution`, and the module-level sample cache behind
 * `_get_sample` and `clear_cache`.
 */
module Server {
  import opened Wrappers
  import opened Sorting
  import opened Text
  import Analysis
  import DataReader

  function MinInt(a: int, b: int): int { if a <= b then a else b }
  function MaxInt(a: int, b: int): int { if a >= b then a else b }
  function MinReal(a: real, b: real): real { if a <= b then a else b }
  function MaxReal(a: real, b: real): real { if a >= b then a else b }

  /** An HTTP error as `HTTPException(status_code, detail)` raises it. */
  datatype HttpError = HttpError(status: int, detail: string)

  // ---------------------------------------------------------------------------------------
  // _coerce_bool
  // ---------------------------------------------------------------------------------------

  /** A JSON payload value, by the Python type `_coerce_bool` tests. */
  datatype Value = NoneValue | BoolValue(b: bool) | IntValue(i: int) | FloatValue(x: real) | StrValue(s: string)
                 | OtherValue

  const TrueWords: set<string> := {"1", "true", "yes", "on"}
  const FalseWords: set<string> := {"0", "false", "no", "off"}

  /** `_coerce_bool(value, default)`. */
  function CoerceBool(value: Value, default: bool): bool
  {
    match value
    case NoneValue => default
    case BoolValue(b) => b
    case IntValue(i) => i != 0
    case FloatValue(x) => x != 0.0
    case StrValue(s) =>
      var v := Lower(Strip(s));
      if v in TrueWords then true else if v in FalseWords then false else default
    case OtherValue => default
  }

  /** `None` and values of any other type give the default; numbers are true when nonzero. */
  lemma CoerceBoolOtherTypes(i: int, x: real, default: bool)
    ensures CoerceBool(NoneValue, default) == default
    ensures CoerceBool(OtherValue, default) == default
    ensures CoerceBool(IntValue(i), default) <==> i != 0
    ensures CoerceBool(FloatValue(x), default) <==> x != 0.0
  {
  }

  /** A string and its stripped, lower-cased form coerce alike. */
  lemma CoerceBoolNormalised(s: string, default: bool)
    ensures CoerceBool(StrValue(s), default) == CoerceBool(StrValue(Lower(Strip(s))), default)
  {
    var t := Strip(s);
    StripLower(t);
    TrimIdempotent(s, IsSpace);
    LowerIdempotent(t);
  }

  /**
   * A recognised word, in any letter case and surrounded by any whitespace, gives
   * True for 1/true/yes/on and False for 0/false/no/off, whatever the default.
   */
  lemma CoerceBoolWords(pre: string, word: string, post: string, default: bool)
    requires forall k :: 0 <= k < |pre| ==> IsSpace(pre[k])
    requires forall k :: 0 <= k < |post| ==> IsSpace(post[k])
    requires Lower(word) in TrueWords + FalseWords
    ensures CoerceBool(StrValue(pre + word + post), default) == (Lower(word) in TrueWords)
  {
    assert word != [];
    SpaceLower(word[0]);
    SpaceLower(word[|word| - 1]);
    assert Lower(word)[0] == LowerChar(word[0]);
    assert Lower(word)[|word| - 1] == LowerChar(word[|word| - 1]);
    StripPadded(pre, word, post);
  }

  /** The default decides the outcome of a string exactly when it is not a recognised word. */
  lemma CoerceBoolDecided(s: string)
    ensures CoerceBool(StrValue(s), true) == CoerceBool(StrValue(s), false)
        <==> Lower(Strip(s)) in TrueWords + FalseWords
  {
  }

  /** A bool, its integer 1/0, and its lower-case name all coerce back to it. */
  lemma CoerceBoolRoundTrip(b: bool, default: bool)
    ensures CoerceBool(BoolValue(b), default) == b
    ensures CoerceBool(IntValue(if b then 1 else 0), default) == b
    ensures CoerceBool(StrValue(if b then "true" else "false"), default) == b
  {
    if b {
      WordNormal("true");
    } else {
      WordNormal("false");
    }
  }

  /** A lower-case word without spaces is its own normal form. */
  lemma WordNormal(w: string)
    requires w == "true" || w == "false"
    ensures Lower(Strip(w)) == w
  {
    StripKeeps(w);
    assert Lower(w) == w;
  }

  // ---------------------------------------------------------------------------------------
  // _sanitize_filename
  // ---------------------------------------------------------------------------------------

  /** Characters kept as they are: `ch.isalnum() or ch in ("_", "-", ".")`. */
  predicate Allowed(c: char, isAlnum: char -> bool)
  {
    isAlnum(c) || c == '_' || c == '-' || c == '.'
  }

  /** Allowed characters other than the underscore: what survives the final strip. */
  predicate Marks(c: char, isAlnum: char -> bool)
  {
    Allowed(c, isAlnum) && c != '_'
  }

  /** Every other character becomes `_`. */
  function SafeChars(name: string, isAlnum: char -> bool): (r: string)
    ensures |r| == |name|
    ensures forall k :: 0 <= k < |r| ==> r[k] == (if Allowed(name[k], isAlnum) then name[k] else '_')
  {
    seq(|name|, k requires 0 <= k < |name| => if Allowed(name[k], isAlnum) then name[k] else '_')
  }

  /** A name `_sanitize_filename` returns unchanged. */
  predicate SafeName(s: string, isAlnum: char -> bool)
  {
    && s != []
    && (forall k :: 0 <= k < |s| ==> Allowed(s[k], isAlnum))
    && s[0] != '_' && s[|s| - 1] != '_'
  }

  /**
   * `_sanitize_filename(name, fallback)`; `isAlnum` is Python's `str.isalnum` on one
   * character. The result is a safe name, unless nothing but underscores and replaced
   * characters was left, in which case it is the fallback.
   */
  function SanitizeFilename(name: string, fallback: string, isAlnum: char -> bool): (r: string)
    ensures (exists k :: 0 <= k < |name| && Marks(name[k], isAlnum)) ==> SafeName(r, isAlnum) && |r| <= |name|
    ensures (forall k :: 0 <= k < |name| ==> !Marks(name[k], isAlnum)) ==> r == fallback
  {
    var mapped := SafeChars(name, isAlnum);
    var safe := Trim(mapped, IsUnderscore);
    SanitizedShape(name, isAlnum);
    if safe == [] then fallback else safe
  }

  lemma SanitizedShape(name: string, isAlnum: char -> bool)
    ensures |Trim(SafeChars(name, isAlnum), IsUnderscore)| <= |name|
    ensures Trim(SafeChars(name, isAlnum), IsUnderscore) == []
        <==> forall k :: 0 <= k < |name| ==> !Marks(name[k], isAlnum)
    ensures Trim(SafeChars(name, isAlnum), IsUnderscore) != [] ==>
      SafeName(Trim(SafeChars(name, isAlnum), IsUnderscore), isAlnum)
  {
    var mapped := SafeChars(name, isAlnum);
    var safe := Trim(mapped, IsUnderscore);
    TrimEnds(mapped, IsUnderscore);
    TrimSlice(mapped, IsUnderscore);
    forall k | 0 <= k < |name| ensures IsUnderscore(mapped[k]) <==> !Marks(name[k], isAlnum) {
    }
    forall k | 0 <= k < |safe| ensures Allowed(safe[k], isAlnum) {
      assert safe[k] == mapped[LeadCount(mapped, IsUnderscore) + k];
    }
  }

  /**
   * With `lo` the first and `hi - 1` the last character that is neither replaced nor `_`,
   * the sanitised name is the replaced name cut to `[lo, hi)`: only the outer underscores go.
   */
  lemma SanitizedSlice(name: string, fallback: string, isAlnum: char -> bool, lo: nat, hi: nat)
    requires lo < hi <= |name|
    requires Marks(name[lo], isAlnum) && Marks(name[hi - 1], isAlnum)
    requires forall k :: 0 <= k < lo ==> !Marks(name[k], isAlnum)
    requires forall k :: hi <= k < |name| ==> !Marks(name[k], isAlnum)
    ensures SanitizeFilename(name, fallback, isAlnum) == SafeChars(name, isAlnum)[lo..hi]
  {
    var mapped := SafeChars(name, isAlnum);
    forall k | 0 <= k < |name| ensures IsUnderscore(mapped[k]) <==> !Marks(name[k], isAlnum) {
    }
    TrimBetween(mapped, IsUnderscore, lo, hi);
  }

  /** A safe name is left as it is. */
  lemma SanitizeKeepsSafe(name: string, fallback: string, isAlnum: char -> bool)
    requires SafeName(name, isAlnum)
    ensures SanitizeFilename(name, fallback, isAlnum) == name
  {
    var mapped := SafeChars(name, isAlnum);
    assert mapped == name;
    assert LeadCount(name, IsUnderscore) == 0;
    assert TrailCount(name, IsUnderscore) == 0;
    assert Trim(name, IsUnderscore) == name;
  }

  /** Sanitizing twice changes nothing more, when the fallback is itself safe. */
  lemma SanitizeIdempotent(name: string, fallback: string, isAlnum: char -> bool)
    requires SafeName(fallback, isAlnum)
    ensures SanitizeFilename(SanitizeFilename(name, fallback, isAlnum), fallback, isAlnum)
         == SanitizeFilename(name, fallback, isAlnum)
  {
    var r := SanitizeFilename(name, fallback, isAlnum);
    SanitizedShape(name, isAlnum);
    SanitizeKeepsSafe(r, fallback, isAlnum);
  }

  // ---------------------------------------------------------------------------------------
  // Export format and DPI
  // ---------------------------------------------------------------------------------------

  datatype ExportFormat = Png | Svg | Pdf

  function FormatName(f: ExportFormat): string
  {
    match f
    case Png => "png"
    case Svg => "svg"
    case Pdf => "pdf"
  }

  /**
   * `str(payload.get("format", "png")).lower()` checked against png/svg/pdf; None stands
   * for a missing key.
   */
  function ParseFormat(requested: Option<string>): (r: Result<ExportFormat, HttpError>)
    ensures var s := Lower(if requested.Some? then requested.value else "png");
      && (r.Ok? <==> s in {"png", "svg", "pdf"})
      && (r.Ok? ==> FormatName(r.value) == s)
      && (r.Err? ==> r.error.status == 400)
    ensures requested.None? ==> r == Ok(Png)
  {
    var s := Lower(if requested.Some? then requested.value else "png");
    if s == "png" then Ok(Png)
    else if s == "svg" then Ok(Svg)
    else if s == "pdf" then Ok(Pdf)
    else Err(HttpError(400, "format must be one of: png, svg, pdf"))
  }

  /** Every format is accepted under its own name, lower or upper case. */
  lemma FormatRoundTrip(f: ExportFormat)
    ensures ParseFormat(Some(FormatName(f))) == Ok(f)
    ensures ParseFormat(Some(Upper(FormatName(f)))) == Ok(f)
  {
    var n := FormatName(f);
    assert Lower(n) == n;
    assert Lower(Upper(n)) == n;
  }

  /** `EXPORT_DPI` in `lcms_app/config.py`. */
  const ExportDpiDefault: int := 300

  /**
   * The DPI an export uses: the requested value converted with `int(...)` (None when the
   * key is missing or the conversion raises), clamped to [72, 600].
   */
  function ClampDpi(requested: Option<int>): (dpi: int)
    ensures 72 <= dpi <= 600
    ensures requested.None? ==> dpi == ExportDpiDefault
    ensures requested.Some? && 72 <= requested.value <= 600 ==> dpi == requested.value
    ensures requested.Some? && requested.value < 72 ==> dpi == 72
    ensures requested.Some? && requested.value > 600 ==> dpi == 600
  {
    var d := if requested.Some? then requested.value else ExportDpiDefault;
    MaxInt(72, MinInt(600, d))
  }

  /** Clamping is idempotent and monotone. */
  lemma ClampDpiStable(a: int, b: int)
    ensures ClampDpi(Some(ClampDpi(Some(a)))) == ClampDpi(Some(a))
    ensures a <= b ==> ClampDpi(Some(a)) <= ClampDpi(Some(b))
  {
  }

  /**
   * The download name of `export_deconvoluted_masses`: a trailing ".d" (in any case) is
   * dropped, the rest sanitized with the fallback "sample".
   */
  function ExportFilename(sampleName: string, format: ExportFormat, isAlnum: char -> bool): (r: string)
    requires forall c: char :: 'a' <= c <= 'z' ==> isAlnum(c)
    ensures EndsWith(r, "_batch_deconvoluted_masses." + FormatName(format))
    ensures SafeName(r[..|r| - |"_batch_deconvoluted_masses." + FormatName(format)|], isAlnum)
  {
    var base := ExportBase(sampleName);
    var safe := SanitizeFilename(base, "sample", isAlnum);
    var suffix := "_batch_deconvoluted_masses." + FormatName(format);
    FallbackSafe(isAlnum);
    SanitizeSafe(base, "sample", isAlnum);
    StemAndSuffix(safe, suffix);
    safe + suffix
  }

  /** The sample name without a trailing ".d" in any case. */
  function ExportBase(sampleName: string): string
  {
    if EndsWith(Lower(sampleName), ".d") then sampleName[..|sampleName| - 2] else sampleName
  }

  /** The stem of the download name is the sanitized base name, with the fallback "sample". */
  lemma ExportStem(sampleName: string, format: ExportFormat, isAlnum: char -> bool)
    requires forall c: char :: 'a' <= c <= 'z' ==> isAlnum(c)
    ensures ExportFilename(sampleName, format, isAlnum)
              [..|ExportFilename(sampleName, format, isAlnum)| - |"_batch_deconvoluted_masses." + FormatName(format)|]
         == SanitizeFilename(ExportBase(sampleName), "sample", isAlnum)
  {
    var safe := SanitizeFilename(ExportBase(sampleName), "sample", isAlnum);
    var suffix := "_batch_deconvoluted_masses." + FormatName(format);
    assert ExportFilename(sampleName, format, isAlnum) == safe + suffix;
    assert (safe + suffix)[..|safe + suffix| - |suffix|] == safe;
  }

  /** The fallback "sample" is a safe name once lower-case letters count as alphanumeric. */
  lemma FallbackSafe(isAlnum: char -> bool)
    requires forall c: char :: 'a' <= c <= 'z' ==> isAlnum(c)
    ensures SafeName("sample", isAlnum)
  {
    forall k | 0 <= k < |"sample"| ensures Allowed("sample"[k], isAlnum) {
      assert 'a' <= "sample"[k] <= 'z';
    }
  }

  /** With a safe fallback, sanitizing always gives a safe name. */
  lemma SanitizeSafe(name: string, fallback: string, isAlnum: char -> bool)
    requires SafeName(fallback, isAlnum)
    ensures SafeName(SanitizeFilename(name, fallback, isAlnum), isAlnum)
  {
  }

  lemma StemAndSuffix(stem: string, suffix: string)
    ensures EndsWith(stem + suffix, suffix)
    ensures (stem + suffix)[..|stem + suffix| - |suffix|] == stem
  {
    assert (stem + suffix)[|stem|..] == suffix;
  }

  // ---------------------------------------------------------------------------------------
  // _detect_deconvolution_window_for_sample
  // ---------------------------------------------------------------------------------------

  /**
   * The outcome of the two outward scans from `apex`: every sample strictly between the
   * edges and the apex (and the apex itself, unless it is an edge) is above the
   * threshold, and each edge is the array end or a sample at or below the threshold.
   */
  predicate EdgesFound(ys: seq<real>, apex: int, threshold: real, left: int, right: int)
  {
    && 0 <= left <= apex <= right < |ys|
    && (forall k :: left < k <= apex ==> ys[k] > threshold)
    && (forall k :: apex <= k < right ==> ys[k] > threshold)
    && (left == 0 || ys[left] <= threshold)
    && (right == |ys| - 1 || ys[right] <= threshold)
  }

  /** The two `while` loops that walk `left_idx` and `right_idx` outward. */
  method ScanEdges(ys: seq<real>, apex: nat, threshold: real) returns (left: nat, right: nat)
    requires apex < |ys|
    ensures EdgesFound(ys, apex, threshold, left, right)
  {
    left := apex;
    while left > 0 && ys[left] > threshold
      invariant 0 <= left <= apex
      invariant forall k :: left < k <= apex ==> ys[k] > threshold
    {
      left := left - 1;
    }
    right := apex;
    while right < |ys| - 1 && ys[right] > threshold
      invariant apex <= right < |ys|
      invariant forall k :: apex <= k < right ==> ys[k] > threshold
    {
      right := right + 1;
    }
  }

  /** Reference definition of the left edge: step left from `i` while above the threshold. */
  function LeftEdge(ys: seq<real>, i: nat, threshold: real): (l: nat)
    requires i < |ys|
    ensures l <= i
  {
    if i == 0 || ys[i] <= threshold then i else LeftEdge(ys, i - 1, threshold)
  }

  /** Reference definition of the right edge: step right from `i` while above the threshold. */
  function RightEdge(ys: seq<real>, i: nat, threshold: real): (r: nat)
    requires i < |ys|
    ensures i <= r < |ys|
    decreases |ys| - i
  {
    if i == |ys| - 1 || ys[i] <= threshold then i else RightEdge(ys, i + 1, threshold)
  }

  lemma {:induction false} LeftEdgeFrom(ys: seq<real>, i: nat, threshold: real, left: nat)
    requires left <= i < |ys|
    requires forall k :: left < k <= i ==> ys[k] > threshold
    requires left == 0 || ys[left] <= threshold
    ensures LeftEdge(ys, i, threshold) == left
    decreases i
  {
    if i > left {
      LeftEdgeFrom(ys, i - 1, threshold, left);
    }
  }

  lemma {:induction false} RightEdgeFrom(ys: seq<real>, i: nat, threshold: real, right: nat)
    requires i <= right < |ys|
    requires forall k :: i <= k < right ==> ys[k] > threshold
    requires right == |ys| - 1 || ys[right] <= threshold
    ensures RightEdge(ys, i, threshold) == right
    decreases right - i
  {
    if i < right {
      RightEdgeFrom(ys, i + 1, threshold, right);
    }
  }

  /**
   * The scan's outcome is exactly the reference edges, so no other pair satisfies it.
   */
  lemma EdgesAreReference(ys: seq<real>, apex: nat, threshold: real, left: nat, right: nat)
    requires EdgesFound(ys, apex, threshold, left, right)
    ensures left == LeftEdge(ys, apex, threshold) && right == RightEdge(ys, apex, threshold)
  {
    LeftEdgeFrom(ys, apex, threshold, left);
    RightEdgeFrom(ys, apex, threshold, right);
  }

  lemma EdgesUnique(ys: seq<real>, apex: nat, threshold: real, l1: nat, r1: nat, l2: nat, r2: nat)
    requires EdgesFound(ys, apex, threshold, l1, r1) && EdgesFound(ys, apex, threshold, l2, r2)
    ensures l1 == l2 && r1 == r2
  {
    EdgesAreReference(ys, apex, threshold, l1, r1);
    EdgesAreReference(ys, apex, threshold, l2, r2);
  }

  /**
   * `max(peaks, key=lambda p: p["intensity"])`: the position in `peaks` of the first
   * peak of greatest intensity.
   */
  function DominantPeak(ys: seq<real>, peaks: seq<nat>): (i: nat)
    requires peaks != [] && forall k :: 0 <= k < |peaks| ==> peaks[k] < |ys|
    ensures i < |peaks|
    ensures forall k :: 0 <= k < |peaks| ==> ys[peaks[k]] <= ys[peaks[i]]
    ensures forall k :: 0 <= k < i ==> ys[peaks[k]] < ys[peaks[i]]
  {
    if |peaks| == 1 then 0
    else
      var i := DominantPeak(ys, peaks[..|peaks| - 1]);
      assert forall k :: 0 <= k < |peaks| - 1 ==> peaks[..|peaks| - 1][k] == peaks[k];
      if ys[peaks[|peaks| - 1]] > ys[peaks[i]] then |peaks| - 1 else i
  }

  /** The protein-region start time of the C4 filter. */
  const ProteinRegionStart: real := 1.8

  /** `[p for p in peaks if p["time"] >= 1.8]`. */
  function LatePeaks(times: seq<real>, peaks: seq<nat>): (r: seq<nat>)
    requires forall k :: 0 <= k < |peaks| ==> peaks[k] < |times|
    ensures forall k :: 0 <= k < |r| ==> r[k] in peaks && times[r[k]] >= ProteinRegionStart
    ensures forall k :: 0 <= k < |peaks| && times[peaks[k]] >= ProteinRegionStart ==> peaks[k] in r
  {
    if peaks == [] then []
    else
      var rest := LatePeaks(times, peaks[..|peaks| - 1]);
      var last := peaks[|peaks| - 1];
      assert forall k :: 0 <= k < |peaks| - 1 ==> peaks[..|peaks| - 1][k] == peaks[k];
      rest + (if times[last] >= ProteinRegionStart then [last] else [])
  }

  /** Strictly increasing indices. */
  predicate Increasing(s: seq<nat>)
  {
    forall i, j :: 0 <= i < j < |s| ==> s[i] < s[j]
  }

  /** The late peaks keep the order of the peak list: ascending peaks give ascending late peaks. */
  lemma {:induction false} LatePeaksAscending(times: seq<real>, peaks: seq<nat>)
    requires forall k :: 0 <= k < |peaks| ==> peaks[k] < |times|
    ensures Increasing(peaks) ==> Increasing(LatePeaks(times, peaks))
  {
    if peaks != [] && Increasing(peaks) {
      var init := peaks[..|peaks| - 1];
      var last := peaks[|peaks| - 1];
      assert forall k :: 0 <= k < |init| ==> init[k] == peaks[k];
      LatePeaksAscending(times, init);
      var rest := LatePeaks(times, init);
      forall k | 0 <= k < |rest| ensures rest[k] < last {
        assert rest[k] in init;
        var a :| 0 <= a < |init| && init[a] == rest[k];
      }
      assert LatePeaks(times, peaks) == rest + (if times[last] >= ProteinRegionStart then [last] else []);
    }
  }

  /** The peaks the dominant one is chosen from: for a C4 method the late ones, if any. */
  function CandidatePeaks(times: seq<real>, peaks: seq<nat>, isC4: bool): (r: seq<nat>)
    requires forall k :: 0 <= k < |peaks| ==> peaks[k] < |times|
    ensures forall k :: 0 <= k < |r| ==> r[k] in peaks
    ensures peaks != [] ==> r != []
    ensures isC4 && (exists k :: 0 <= k < |peaks| && times[peaks[k]] >= ProteinRegionStart) ==>
      forall k :: 0 <= k < |r| ==> times[r[k]] >= ProteinRegionStart
    ensures isC4 && (exists k :: 0 <= k < |peaks| && times[peaks[k]] >= ProteinRegionStart) ==>
      forall k :: 0 <= k < |peaks| && times[peaks[k]] >= ProteinRegionStart ==> peaks[k] in r
    ensures isC4 && (forall k :: 0 <= k < |peaks| ==> times[peaks[k]] < ProteinRegionStart) ==> r == peaks
    ensures !isC4 ==> r == peaks
    ensures Increasing(peaks) ==> Increasing(r)
  {
    if isC4 then
      var late := LatePeaks(times, peaks);
      LatePeaksAscending(times, peaks);
      assert late != [] ==> late[0] in peaks && times[late[0]] >= ProteinRegionStart;
      if late != [] then late else peaks
    else peaks
  }

  /** The widest window the detector returns around a peak. */
  const MaxWindowWidth: real := 0.30

  /**
   * A window wider than 0.30 is replaced by one of half-width 0.15 around the apex time,
   * clamped to the acquisition's time range.
   */
  function CapWindow(start: real, end: real, peakTime: real, minTime: real, maxTime: real): (r: (real, real))
    ensures r.1 - r.0 <= MaxWindowWidth
    ensures !(end > start && end - start > MaxWindowWidth) ==> r == (start, end)
    ensures end > start && end - start > MaxWindowWidth ==>
      && minTime <= r.0 && r.1 <= maxTime
      && peakTime - MaxWindowWidth / 2.0 <= r.0 && r.1 <= peakTime + MaxWindowWidth / 2.0
  {
    if end > start && end - start > MaxWindowWidth then
      var half := MaxWindowWidth / 2.0;
      (MaxReal(minTime, peakTime - half), MinReal(maxTime, peakTime + half))
    else (start, end)
  }

  /** The fallback window: the first minute, cut at the last scan. */
  function FallbackWindow(times: seq<real>): (r: (real, real))
    requires times != []
    ensures r.0 == times[0] && r.1 <= times[|times| - 1] && r.1 <= times[0] + 1.0
    ensures r.1 == times[|times| - 1] || r.1 == times[0] + 1.0
  {
    (times[0], MinReal(times[0] + 1.0, times[|times| - 1]))
  }

  /** The scan index of the dominant candidate peak. */
  function WindowApex(times: seq<real>, ys: seq<real>, peaks: seq<nat>, isC4: bool): (apex: nat)
    requires |ys| == |times| && peaks != []
    requires forall k :: 0 <= k < |peaks| ==> peaks[k] < |times|
    ensures apex < |times|
  {
    var candidates := CandidatePeaks(times, peaks, isC4);
    candidates[DominantPeak(ys, candidates)]
  }

  /** Scan times that never decrease. */
  predicate NonDecreasing(times: seq<real>)
  {
    forall i, j :: 0 <= i <= j < |times| ==> times[i] <= times[j]
  }

  /**
   * `_detect_deconvolution_window_for_sample`. `msTimes` and `tic` are the sample's
   * arrays; `smoothed` is `smooth_data(tic, 5)` and `peaks` the indices `find_peaks`
   * reports on it, both computed outside this model.
   */
  method DetectDeconvolutionWindow(msTimes: Option<seq<real>>, tic: Option<seq<real>>, smoothed: seq<real>,
                                   peaks: seq<nat>, isC4: bool)
    returns (start: real, end: real)
    requires msTimes.Some? && msTimes.value != [] && tic.Some? ==>
      |smoothed| == |msTimes.value| && forall k :: 0 <= k < |peaks| ==> peaks[k] < |msTimes.value|
    ensures msTimes.None? || msTimes.value == [] ==> start == 0.0 && end == 0.0
    ensures msTimes.Some? && msTimes.value != [] && (tic.None? || peaks == []) ==>
      (start, end) == FallbackWindow(msTimes.value)
    ensures msTimes.Some? && msTimes.value != [] && tic.Some? && peaks != [] ==>
      var times := msTimes.value;
      var apex := WindowApex(times, smoothed, peaks, isC4);
      && end - start <= MaxWindowWidth
      && exists left, right ::
           && EdgesFound(smoothed, apex, smoothed[apex] * 0.48, left, right)
           && (start, end) == CapWindow(times[left], times[right], times[apex], times[0], times[|times| - 1])
    ensures msTimes.Some? && msTimes.value != [] && NonDecreasing(msTimes.value) ==>
      msTimes.value[0] <= start && end <= msTimes.value[|msTimes.value| - 1]
  {
    if msTimes.None? || |msTimes.value| == 0 {
      return 0.0, 0.0;
    }
    var times := msTimes.value;
    var minTime := times[0];
    var maxTime := times[|times| - 1];
    if tic.None? || peaks == [] {
      start, end := minTime, MinReal(minTime + 1.0, maxTime);
      return;
    }
    var candidates := CandidatePeaks(times, peaks, isC4);
    var apex := candidates[DominantPeak(smoothed, candidates)];
    var threshold := smoothed[apex] * 0.48;
    var left, right := ScanEdges(smoothed, apex, threshold);
    var window := CapWindow(times[left], times[right], times[apex], minTime, maxTime);
    start, end := window.0, window.1;
  }

  // ---------------------------------------------------------------------------------------
  // _run_default_report_deconvolution
  // ---------------------------------------------------------------------------------------

  /** A deconvoluted component as the multiply charged deconvolution reports it. */
  datatype Component = Component(mass: real, intensity: real, ionMzs: seq<real>)

  /** A serialised result row: the fields the final filter and sort look at. */
  datatype ReportRow = ReportRow(mass: real, intensity: real)

  function MinOf(xs: seq<real>): (m: real)
    requires xs != []
    ensures m in xs && forall k :: 0 <= k < |xs| ==> m <= xs[k]
  {
    if |xs| == 1 then xs[0]
    else MinReal(xs[0], MinOf(xs[1..]))
  }

  function MaxOf(xs: seq<real>): (m: real)
    requires xs != []
    ensures m in xs && forall k :: 0 <= k < |xs| ==> xs[k] <= m
  {
    if |xs| == 1 then xs[0]
    else MaxReal(xs[0], MaxOf(xs[1..]))
  }

  /** The m/z margin around a component's ions that singly charged detection skips. */
  const ExcludeMargin: real := 2.0

  /** `(min(mzs) - 2.0, max(mzs) + 2.0)` for each component with ions, in order. */
  function ExcludeRanges(components: seq<Component>): (r: seq<(real, real)>)
    ensures |r| <= |components|
  {
    if components == [] then []
    else
      var c := components[|components| - 1];
      ExcludeRanges(components[..|components| - 1])
        + (if c.ionMzs != [] then [(MinOf(c.ionMzs) - ExcludeMargin, MaxOf(c.ionMzs) + ExcludeMargin)] else [])
  }

  /**
   * Every m/z within 2 of an ion of any component falls in an excluded range, so the
   * singly charged pass cannot report it again.
   */
  lemma {:induction false} IonsExcluded(components: seq<Component>, j: int, ion: int, mz: real)
    requires 0 <= j < |components| && 0 <= ion < |components[j].ionMzs|
    requires components[j].ionMzs[ion] - ExcludeMargin <= mz <= components[j].ionMzs[ion] + ExcludeMargin
    ensures Analysis.Excluded(ExcludeRanges(components), mz)
  {
    var init := components[..|components| - 1];
    var c := components[|components| - 1];
    var extra := if c.ionMzs != [] then [(MinOf(c.ionMzs) - ExcludeMargin, MaxOf(c.ionMzs) + ExcludeMargin)] else [];
    assert ExcludeRanges(components) == ExcludeRanges(init) + extra;
    if j == |components| - 1 {
      ExcludedAppend(ExcludeRanges(init), extra, 0, mz);
    } else {
      assert init[j] == components[j];
      IonsExcluded(init, j, ion, mz);
      ExcludedExtend(ExcludeRanges(init), extra, mz);
    }
  }

  lemma ExcludedAppend(ranges: seq<(real, real)>, extra: seq<(real, real)>, k: nat, mz: real)
    requires k < |extra| && extra[k].0 <= mz <= extra[k].1
    ensures Analysis.Excluded(ranges + extra, mz)
  {
    assert (ranges + extra)[|ranges| + k] == extra[k];
  }

  lemma ExcludedExtend(ranges: seq<(real, real)>, extra: seq<(real, real)>, mz: real)
    requires Analysis.Excluded(ranges, mz)
    ensures Analysis.Excluded(ranges + extra, mz)
  {
    var k :| 0 <= k < |ranges| && ranges[k].0 <= mz <= ranges[k].1;
    assert (ranges + extra)[k] == ranges[k];
  }

  /** `[r for r in results if low_mw <= r["mass"] <= high_mw]`. */
  function InMassRange(rows: seq<ReportRow>, lowMw: real, highMw: real): (r: seq<ReportRow>)
    ensures forall k :: 0 <= k < |r| ==> lowMw <= r[k].mass <= highMw && r[k] in rows
    ensures forall k :: 0 <= k < |rows| && lowMw <= rows[k].mass <= highMw ==> rows[k] in r
  {
    if rows == [] then []
    else
      var rest := InMassRange(rows[..|rows| - 1], lowMw, highMw);
      var last := rows[|rows| - 1];
      assert forall k :: 0 <= k < |rows| - 1 ==> rows[..|rows| - 1][k] == rows[k];
      rest + (if lowMw <= last.mass <= highMw then [last] else [])
  }

  /** Each row in the mass range is kept as many times as it occurs, and no other row is kept. */
  lemma {:induction false} InMassRangeCounts(rows: seq<ReportRow>, lowMw: real, highMw: real)
    ensures forall x :: multiset(InMassRange(rows, lowMw, highMw))[x]
                     == if lowMw <= x.mass <= highMw then multiset(rows)[x] else 0
  {
    if rows != [] {
      var init := rows[..|rows| - 1];
      var last := rows[|rows| - 1];
      InMassRangeCounts(init, lowMw, highMw);
      assert rows == init + [last];
      assert multiset(rows) == multiset(init) + multiset{last};
      assert InMassRange(rows, lowMw, highMw)
          == InMassRange(init, lowMw, highMw) + (if lowMw <= last.mass <= highMw then [last] else []);
    }
  }

  /** `sort(key=intensity, reverse=True)`. */
  predicate MoreAbundant(a: ReportRow, b: ReportRow)
  {
    a.intensity >= b.intensity
  }

  lemma MoreAbundantTotal()
    ensures TotalPreorder(MoreAbundant)
  {
  }

  /** The rows of the multiply charged components, then those of the singly charged species. */
  function ReportRows(components: seq<Component>, singly: seq<Analysis.Species>): (r: seq<ReportRow>)
    ensures |r| == |components| + |singly|
  {
    seq(|components|, k requires 0 <= k < |components| => ReportRow(components[k].mass, components[k].intensity))
      + seq(|singly|, k requires 0 <= k < |singly| => ReportRow(singly[k].mass, singly[k].intensity))
  }

  const ReportLowMw: real := 500.0
  const ReportHighMw: real := 50000.0
  const ReportNoiseCutoff: real := 1000.0
  const ReportPwhh: real := 0.6
  /** The upper mass bound of the singly charged pass: `min(high_mw, 2000.0)`. */
  const SinglyHighMw: real := 2000.0

  /**
   * `_run_default_report_deconvolution`. `components` is what the multiply charged
   * deconvolution returns for the spectrum; `smoothed` is `_smooth_spectrum(mz, intensity,
   * 0.6)`, one value per m/z point, and `centroid` and `resolution` are the other numeric
   * inputs of the singly charged pass. Besides the report it returns the singly charged
   * species it appended.
   */
  method RunDefaultReport(mz: Option<seq<real>>, intensity: Option<seq<real>>, components: seq<Component>,
                          smoothed: seq<real>, centroid: int -> real, resolution: real)
    returns (report: seq<ReportRow>, singly: seq<Analysis.Species>)
    ensures mz.None? || intensity.None? || mz.value == [] ==> report == [] && singly == []
    ensures forall k :: 0 <= k < |report| ==> ReportLowMw <= report[k].mass <= ReportHighMw
    ensures Sorted(report, MoreAbundant)
    ensures mz.Some? && intensity.Some? && mz.value != [] ==>
      multiset(report) == multiset(InMassRange(ReportRows(components, singly), ReportLowMw, ReportHighMw))
    ensures forall k :: 0 <= k < |singly| ==>
      && singly[k].charges == [1]
      && ReportLowMw <= singly[k].mass <= SinglyHighMw
      && !Analysis.Excluded(ExcludeRanges(components), singly[k].mz)
    ensures mz.Some? && intensity.Some? && mz.value != [] ==>
      exists found ::
        && (|smoothed| > 0 ==> Analysis.PeakPicking(smoothed, Analysis.MinDistancePts(ReportPwhh, resolution), found))
        && Analysis.SinglyReport(found, smoothed, centroid, ReportNoiseCutoff, 1.0, ReportLowMw,
                                 MinReal(ReportHighMw, SinglyHighMw), ExcludeRanges(components),
                                 Analysis.ProtonMass(false), singly)
  {
    if mz.None? || intensity.None? || |mz.value| == 0 {
      return [], [];
    }
    var exclude := CollectExcludeRanges(components);
    var found;
    singly, found := Analysis.DetectSinglyCharged(mz.value, smoothed, centroid, resolution, ReportPwhh,
                                                  ReportNoiseCutoff, 1.0, ReportLowMw,
                                                  MinReal(ReportHighMw, SinglyHighMw), exclude, false);
    assert (|smoothed| > 0 ==> Analysis.PeakPicking(smoothed, Analysis.MinDistancePts(ReportPwhh, resolution), found))
      && Analysis.SinglyReport(found, smoothed, centroid, ReportNoiseCutoff, 1.0, ReportLowMw,
                               MinReal(ReportHighMw, SinglyHighMw), exclude, Analysis.ProtonMass(false), singly);
    var filtered := InMassRange(ReportRows(components, singly), ReportLowMw, ReportHighMw);
    report := SortBy(filtered, MoreAbundant);
    SortedReport(filtered, report, ReportLowMw, ReportHighMw);
  }

  /** The loop collecting one window per component with ions, in component order. */
  method CollectExcludeRanges(components: seq<Component>) returns (exclude: seq<(real, real)>)
    ensures exclude == ExcludeRanges(components)
  {
    exclude := [];
    for i := 0 to |components|
      invariant exclude == ExcludeRanges(components[..i])
    {
      var mzs := components[i].ionMzs;
      if mzs != [] {
        exclude := exclude + [(MinOf(mzs) - ExcludeMargin, MaxOf(mzs) + ExcludeMargin)];
      }
      assert components[..i + 1][..i] == components[..i];
    }
    assert components[..|components|] == components;
  }

  /** Sorting the rows in range keeps them in range and orders them by falling intensity. */
  lemma SortedReport(filtered: seq<ReportRow>, report: seq<ReportRow>, lowMw: real, highMw: real)
    requires forall k :: 0 <= k < |filtered| ==> lowMw <= filtered[k].mass <= highMw
    requires report == SortBy(filtered, MoreAbundant)
    ensures forall k :: 0 <= k < |report| ==> lowMw <= report[k].mass <= highMw
    ensures Sorted(report, MoreAbundant)
  {
    MoreAbundantTotal();
    forall k | 0 <= k < |report| ensures lowMw <= report[k].mass <= highMw {
      assert report[k] in multiset(filtered);
    }
  }

  // ---------------------------------------------------------------------------------------
  // _sample_cache, _get_sample and clear_cache
  // ---------------------------------------------------------------------------------------

  /** What `SampleData(path).load()` does: succeed, or fail with the sample's error text. */
  datatype LoadOutcome = Loaded | Failed(error: Option<string>)

  /** `detail=sample.error or "Failed to load sample"`. */
  function FailureDetail(error: Option<string>): (d: string)
    ensures d != []
    ensures error.Some? && error.value != [] ==> d == error.value
  {
    if error.Some? && error.value != [] then error.value else "Failed to load sample"
  }

  /** The module-level `_sample_cache` dictionary. */
  class SampleCache {
    var entries: map<string, DataReader.SampleData>

    constructor ()
      ensures entries == map[]
    {
      entries := map[];
    }

    /**
     * `_get_sample(folder_path)`: a cached sample is returned as it is; otherwise a new
     * sample is loaded (`load` stands for the reader) and cached only when loading succeeds.
     */
    method GetSample(path: string, load: string -> LoadOutcome) returns (r: Result<DataReader.SampleData, HttpError>)
      modifies this
      ensures path in old(entries) ==> r == Ok(old(entries)[path]) && entries == old(entries)
      ensures path !in old(entries) && load(path).Loaded? ==>
        && r.Ok? && fresh(r.value) && r.value.folderPath == path && r.value.loaded
        && entries == old(entries)[path := r.value]
      ensures path !in old(entries) && load(path).Failed? ==>
        r == Err(HttpError(400, FailureDetail(load(path).error))) && entries == old(entries)
    {
      if path !in entries {
        var sample := new DataReader.SampleData(path);
        var outcome := load(path);
        if outcome.Failed? {
          sample.error := outcome.error;
          return Err(HttpError(400, FailureDetail(sample.error)));
        }
        sample.loaded := true;
        entries := entries[path := sample];
      }
      r := Ok(entries[path]);
    }

    /** `clear_cache`: `_sample_cache.clear()`. */
    method ClearCache()
      modifies this
      ensures entries == map[]
    {
      entries := map[];
    }
  }
}
