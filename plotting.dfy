/**
 * The list and text layout rules of `backend/lcms_app/plotting.py`: the per-sample colour
 * list of `create_time_progression_figure`, the default mass-axis range of
 * `_plot_deconvoluted_masses_panel`, and the text lines that `create_report_info_page`
 * writes and draws.
 */
module Plotting {
  import opened Wrappers
  import opened Sorting

  // ---------------------------------------------------------------------------------------
  // Colour list of create_time_progression_figure
  // ---------------------------------------------------------------------------------------

  /** `EIC_COLORS` in `lcms_app/config.py`. */
  const EicColors: seq<string> :=
    ["#1f77b4", "#ff7f0e", "#2ca02c", "#d62728", "#9467bd", "#8c564b", "#e377c2", "#7f7f7f"]

  /** The `TIME_COLORS` defaults in `lcms_app/config.py`. */
  const DefaultInitial: string := "#808080"
  const DefaultMid: string := "#1f77b4"
  const DefaultFinal: string := "#d62728"

  /** The `for c in EIC_COLORS` loop: append the colours not yet present until there are `n`. */
  function Extend(colors: seq<string>, pool: seq<string>, n: nat): seq<string>
    decreases |pool|
  {
    if pool == [] || |colors| >= n then colors
    else Extend(if pool[0] in colors then colors else colors + [pool[0]], pool[1..], n)
  }

  /** The `while` loop: append `EIC_COLORS[len(colors) % 8]` until there are `n`. */
  function Fill(colors: seq<string>, n: nat): seq<string>
    decreases n - |colors|
  {
    if |colors| >= n then colors else Fill(colors + [EicColors[|colors| % |EicColors|]], n)
  }

  /** The colour list for `n` samples, given the initial, mid and final colours. */
  function Palette(n: nat, initial: string, mid: string, final: string): seq<string>
  {
    if n == 2 then [initial, final]
    else if n >= 3 then Fill(Extend([initial, mid, final], EicColors, n), n)
    else [initial]
  }

  /**
   * The extension keeps what was there, stays within `n` colours (when it starts within),
   * and appends only pool colours that are not already in the list.
   */
  lemma {:induction false} ExtendShape(colors: seq<string>, pool: seq<string>, n: nat)
    ensures var r := Extend(colors, pool, n);
      && colors <= r
      && (|colors| <= n ==> |r| <= n)
      && forall k :: |colors| <= k < |r| ==> r[k] in pool && r[k] !in r[..k]
    decreases |pool|
  {
    if pool == [] || |colors| >= n {
    } else {
      var next := if pool[0] in colors then colors else colors + [pool[0]];
      ExtendShape(next, pool[1..], n);
      var r := Extend(colors, pool, n);
      assert r == Extend(next, pool[1..], n);
      forall k | |colors| <= k < |r|
        ensures r[k] in pool && r[k] !in r[..k]
      {
        if k < |next| {
          assert next[..k] == colors && r[k] == next[k] == pool[0];
          assert r[..k] == next[..k];
        } else {
          assert r[k] in pool[1..];
        }
      }
    }
  }

  /** The padding loop fills up to exactly `n`, cycling through `EIC_COLORS` by position. */
  lemma {:induction false} FillShape(colors: seq<string>, n: nat)
    ensures var r := Fill(colors, n);
      && colors <= r
      && |r| == (if |colors| >= n then |colors| else n)
      && forall k :: |colors| <= k < |r| ==> r[k] == EicColors[k % |EicColors|]
    decreases n - |colors|
  {
    if |colors| < n {
      var next := colors + [EicColors[|colors| % |EicColors|]];
      FillShape(next, n);
      var r := Fill(colors, n);
      assert r[|colors|] == next[|colors|];
    }
  }

  /**
   * One sample gets the initial colour, two get initial and final, and three or more
   * get exactly one colour each: initial, mid and final first, then colours of
   * `EIC_COLORS` not yet used, then `EIC_COLORS` by position.
   */
  lemma PaletteCases(n: nat, initial: string, mid: string, final: string)
    ensures n <= 1 ==> Palette(n, initial, mid, final) == [initial]
    ensures n == 2 ==> Palette(n, initial, mid, final) == [initial, final]
    ensures n >= 3 ==> |Palette(n, initial, mid, final)| == n
    ensures n >= 3 ==> Palette(n, initial, mid, final)[..3] == [initial, mid, final]
    ensures n >= 3 ==> Extend([initial, mid, final], EicColors, n) <= Palette(n, initial, mid, final)
    ensures n >= 3 ==> forall k :: 3 <= k < |Extend([initial, mid, final], EicColors, n)| ==>
      Palette(n, initial, mid, final)[k] in EicColors
      && Palette(n, initial, mid, final)[k] !in Palette(n, initial, mid, final)[..k]
    ensures n >= 3 ==> forall k :: |Extend([initial, mid, final], EicColors, n)| <= k < n ==>
      Palette(n, initial, mid, final)[k] == EicColors[k % |EicColors|]
  {
    if n >= 3 {
      PaletteLong(n, initial, mid, final);
    }
  }

  lemma PaletteLong(n: nat, initial: string, mid: string, final: string)
    requires n >= 3
    ensures var r := Fill(Extend([initial, mid, final], EicColors, n), n);
      var e := Extend([initial, mid, final], EicColors, n);
      && |r| == n
      && r[..3] == [initial, mid, final]
      && e <= r
      && (forall k :: 3 <= k < |e| ==> r[k] in EicColors && r[k] !in r[..k])
      && (forall k :: |e| <= k < n ==> r[k] == EicColors[k % |EicColors|])
  {
    var start := [initial, mid, final];
    var e := Extend(start, EicColors, n);
    ExtendShape(start, EicColors, n);
    FillShape(e, n);
    var r := Fill(e, n);
    assert r[..3] == e[..3] == start;
    forall k | 3 <= k < |e| ensures r[k] in EicColors && r[k] !in r[..k] {
      assert r[..k] == e[..k];
      assert r[k] == e[k];
    }
  }

  /**
   * With the default colours, the first nine samples get nine different colours: the
   * extension appends the six `EIC_COLORS` entries that are not blue or red.
   */
  lemma DefaultPaletteDistinct(n: nat)
    requires 3 <= n <= 9
    ensures Distinct(Palette(n, DefaultInitial, DefaultMid, DefaultFinal))
  {
    var start := [DefaultInitial, DefaultMid, DefaultFinal];
    var e := Extend(start, EicColors, n);
    ExtendShape(start, EicColors, n);
    ExtendDefaultLength(n);
    FillShape(e, n);
    assert Fill(e, n) == e;
    forall i, j | 0 <= i < j < |e|
      ensures e[i] != e[j]
    {
      if j >= 3 {
        assert e[i] in e[..j];
      } else {
        assert e[..3] == start;
      }
    }
  }

  lemma ExtendDefaultLength(n: nat)
    requires 3 <= n <= 9
    ensures |Extend([DefaultInitial, DefaultMid, DefaultFinal], EicColors, n)| == n
  {
    var c0 := [DefaultInitial, DefaultMid, DefaultFinal];
    var c1 := c0 + [EicColors[1]];
    var c2 := c1 + [EicColors[2]];
    DefaultsFresh();
    assert EicColors[0..] == EicColors;
    if n == 3 {
      ExtendDone(c0, EicColors, n);
    } else {
      ExtendSkip(c0, EicColors, 0, n);
      ExtendTake(c0, EicColors, 1, n);
      if n == 4 {
        ExtendDone(c1, EicColors[2..], n);
      } else {
        ExtendTake(c1, EicColors, 2, n);
        if n == 5 {
          ExtendDone(c2, EicColors[3..], n);
        } else {
          ExtendSkip(c2, EicColors, 3, n);
          ExtendDefaultTail(n);
        }
      }
    }
  }

  /** From the fifth `EIC_COLORS` entry on, every one is new to the default colours. */
  lemma ExtendDefaultTail(n: nat)
    requires 6 <= n <= 9
    ensures var c2 := [DefaultInitial, DefaultMid, DefaultFinal] + [EicColors[1]] + [EicColors[2]];
      |Extend(c2, EicColors[4..], n)| == n
  {
    var c2 := [DefaultInitial, DefaultMid, DefaultFinal] + [EicColors[1]] + [EicColors[2]];
    var c3 := c2 + [EicColors[4]];
    var c4 := c3 + [EicColors[5]];
    var c5 := c4 + [EicColors[6]];
    var c6 := c5 + [EicColors[7]];
    DefaultsFresh();
    ExtendTake(c2, EicColors, 4, n);
    if n == 6 {
      ExtendDone(c3, EicColors[5..], n);
    } else {
      ExtendTake(c3, EicColors, 5, n);
      if n == 7 {
        ExtendDone(c4, EicColors[6..], n);
      } else {
        ExtendTake(c4, EicColors, 6, n);
        if n == 8 {
          ExtendDone(c5, EicColors[7..], n);
        } else {
          ExtendTake(c5, EicColors, 7, n);
          ExtendDone(c6, EicColors[8..], n);
        }
      }
    }
  }

  /** Which `EIC_COLORS` entries the default colours already hold, one step of the loop at a time. */
  lemma DefaultsFresh()
    ensures var c0 := [DefaultInitial, DefaultMid, DefaultFinal];
      && EicColors[0] in c0
      && EicColors[1] !in c0
      && EicColors[2] !in c0 + [EicColors[1]]
      && EicColors[3] in c0 + [EicColors[1]] + [EicColors[2]]
      && EicColors[4] !in c0 + [EicColors[1]] + [EicColors[2]]
      && EicColors[5] !in c0 + [EicColors[1]] + [EicColors[2]] + [EicColors[4]]
      && EicColors[6] !in c0 + [EicColors[1]] + [EicColors[2]] + [EicColors[4]] + [EicColors[5]]
      && EicColors[7] !in c0 + [EicColors[1]] + [EicColors[2]] + [EicColors[4]] + [EicColors[5]] + [EicColors[6]]
  {
  }

  /** One iteration of the extension loop, at position k of the pool, on a colour already present. */
  lemma ExtendSkip(colors: seq<string>, pool: seq<string>, k: nat, n: nat)
    requires k < |pool| && |colors| < n && pool[k] in colors
    ensures Extend(colors, pool[k..], n) == Extend(colors, pool[k + 1..], n)
  {
    assert pool[k..][0] == pool[k];
    assert pool[k..][1..] == pool[k + 1..];
  }

  /** One iteration of the extension loop, at position k of the pool, on a new colour. */
  lemma ExtendTake(colors: seq<string>, pool: seq<string>, k: nat, n: nat)
    requires k < |pool| && |colors| < n && pool[k] !in colors
    ensures Extend(colors, pool[k..], n) == Extend(colors + [pool[k]], pool[k + 1..], n)
  {
    assert pool[k..][0] == pool[k];
    assert pool[k..][1..] == pool[k + 1..];
  }

  /** The extension loop stops once there are n colours. */
  lemma ExtendDone(colors: seq<string>, pool: seq<string>, n: nat)
    requires |colors| >= n
    ensures Extend(colors, pool, n) == colors
  {
  }

  /**
   * The colour-list construction of `create_time_progression_figure` for `n` samples;
   * `initial`, `mid` and `final` are the custom colours or the `TIME_COLORS` defaults.
   */
  method TimeProgressionColors(n: nat, initial: string, mid: string, final: string) returns (colors: seq<string>)
    ensures colors == Palette(n, initial, mid, final)
  {
    if n == 2 {
      colors := [initial, final];
    } else if n >= 3 {
      colors := [initial, mid, final];
      var i := 0;
      while i < |EicColors|
        invariant 0 <= i <= |EicColors|
        invariant Extend(colors, EicColors[i..], n) == Extend([initial, mid, final], EicColors, n)
      {
        if |colors| >= n {
          break;
        }
        var c := EicColors[i];
        assert EicColors[i..][1..] == EicColors[i + 1..];
        if c !in colors {
          colors := colors + [c];
        }
        i := i + 1;
      }
      assert colors == Extend([initial, mid, final], EicColors, n);
      ghost var extended := colors;
      while |colors| < n
        invariant Fill(colors, n) == Fill(extended, n)
        decreases n - |colors|
      {
        colors := colors + [EicColors[|colors| % |EicColors|]];
      }
    } else {
      colors := [initial];
    }
  }

  // ---------------------------------------------------------------------------------------
  // Mass axis of _plot_deconvoluted_masses_panel
  // ---------------------------------------------------------------------------------------

  /**
   * The displayed mass range in kDa: the configured range in Da scaled by 1/1000, or
   * 1 to 50 kDa when that range is empty or reversed.
   */
  function MassAxisRange(xMinDa: real, xMaxDa: real): (r: (real, real))
    ensures r.0 < r.1
    ensures xMinDa < xMaxDa ==> r.0 * 1000.0 == xMinDa && r.1 * 1000.0 == xMaxDa
    ensures xMaxDa <= xMinDa ==> r == (1.0, 50.0)
  {
    var lo := xMinDa / 1000.0;
    var hi := xMaxDa / 1000.0;
    if hi <= lo then (1.0, 50.0) else (lo, hi)
  }

  // ---------------------------------------------------------------------------------------
  // Text helpers of the report page
  // ---------------------------------------------------------------------------------------

  function Spaces(n: nat): (r: string)
    ensures |r| == n && forall k :: 0 <= k < n ==> r[k] == ' '
  {
    seq(n, _ => ' ')
  }

  /** `f"{s:<w}"`, the default alignment of a string. */
  function PadRight(s: string, w: nat): (r: string)
    ensures s <= r
    ensures |r| == if |s| >= w then |s| else w
    ensures forall k :: |s| <= k < |r| ==> r[k] == ' '
  {
    if |s| >= w then s else s + Spaces(w - |s|)
  }

  /** `f"{s:>w}"`. */
  function PadLeft(s: string, w: nat): (r: string)
    ensures |r| == if |s| >= w then |s| else w
    ensures r[|r| - |s|..] == s
    ensures forall k :: 0 <= k < |r| - |s| ==> r[k] == ' '
  {
    if |s| >= w then s else Spaces(w - |s|) + s
  }

  /** `f"{s:^w}"`: the extra space of an odd padding goes to the right. */
  function Center(s: string, w: nat): (r: string)
    ensures |r| == if |s| >= w then |s| else w
    ensures |s| < w ==> r[(w - |s|) / 2..(w - |s|) / 2 + |s|] == s
  {
    if |s| >= w then s
    else
      var pad := w - |s|;
      Spaces(pad / 2) + s + Spaces(pad - pad / 2)
  }

  /** `c * n` for a one-character string `c`. */
  function Repeat(c: char, n: nat): (r: string)
    ensures |r| == n && forall k :: 0 <= k < n ==> r[k] == c
  {
    seq(n, _ => c)
  }

  /** `"=" * 70`. */
  const SepLine: string := Repeat('=', 70)

  // ---------------------------------------------------------------------------------------
  // Acquisition block of create_report_info_page
  // ---------------------------------------------------------------------------------------

  /** `(acq_key, label)` pairs of the left column, in order. */
  const LeftMap: seq<(string, string)> := [
    ("Acq. Operator", "Acq. Operator"),
    ("Operator", "Acq. Operator"),
    ("Acq. Instrument", "Acq. Instrument"),
    ("Instrument", "Acq. Instrument"),
    ("Injection Date", "Injection Date")
  ]

  /** `(acq_key, label)` pairs of the right column, in order. */
  const RightMap: seq<(string, string)> := [
    ("Seq. Line", "Seq. Line"),
    ("Location", "Location"),
    ("Inj", "Inj"),
    ("Inj Volume", "Inj Volume")
  ]

  /** A label and the acquisition value printed after it. */
  datatype Item = Item(caption: string, value: string)

  /**
   * The items one `for acq_key, label in _map_...` loop produces from the labels not
   * yet `seen`, and the `seen` set it leaves.
   */
  function Layout(acq: map<string, string>, m: seq<(string, string)>, seen: set<string>): (r: (seq<Item>, set<string>))
    ensures seen <= r.1
    ensures forall k :: 0 <= k < |r.0| ==> r.0[k].caption !in seen && r.0[k].caption in r.1
    ensures forall j, k :: 0 <= j < k < |r.0| ==> r.0[j].caption != r.0[k].caption
    decreases |m|
  {
    if m == [] then ([], seen)
    else
      var key := m[0].0;
      var caption := m[0].1;
      if key in acq && caption !in seen then
        var rest := Layout(acq, m[1..], seen + {caption});
        ([Item(caption, acq[key])] + rest.0, rest.1)
      else Layout(acq, m[1..], seen)
  }

  /** `f"{label:<w}: {value}"`. */
  function ItemLine(item: Item, w: nat): string
  {
    PadRight(item.caption, w) + ": " + item.value
  }

  function ItemLines(items: seq<Item>, w: nat): (r: seq<string>)
    ensures |r| == |items|
  {
    seq(|items|, k requires 0 <= k < |items| => ItemLine(items[k], w))
  }

  /** The first of `keys` present in `acq`, under `label`; nothing when none is present. */
  function FirstPresent(acq: map<string, string>, caption: string, keys: seq<string>): seq<Item>
  {
    if keys == [] then []
    else if keys[0] in acq then [Item(caption, acq[keys[0]])]
    else FirstPresent(acq, caption, keys[1..])
  }

  function LeftItems(acq: map<string, string>): seq<Item>
  {
    Layout(acq, LeftMap, {}).0
  }

  function RightItems(acq: map<string, string>): seq<Item>
  {
    Layout(acq, RightMap, Layout(acq, LeftMap, {}).1).0
  }

  /** One iteration of a column loop on an entry that is shown. */
  lemma LayoutTake(acq: map<string, string>, m: seq<(string, string)>, k: nat, seen: set<string>)
    requires k < |m| && m[k].0 in acq && m[k].1 !in seen
    ensures Layout(acq, m[k..], seen).0 == [Item(m[k].1, acq[m[k].0])] + Layout(acq, m[k + 1..], seen + {m[k].1}).0
    ensures Layout(acq, m[k..], seen).1 == Layout(acq, m[k + 1..], seen + {m[k].1}).1
  {
    assert m[k..][0] == m[k] && m[k..][1..] == m[k + 1..];
  }

  /** One iteration of a column loop on an entry that is absent or already seen. */
  lemma LayoutSkip(acq: map<string, string>, m: seq<(string, string)>, k: nat, seen: set<string>)
    requires k < |m| && !(m[k].0 in acq && m[k].1 !in seen)
    ensures Layout(acq, m[k..], seen) == Layout(acq, m[k + 1..], seen)
  {
    assert m[k..][0] == m[k] && m[k..][1..] == m[k + 1..];
  }

  /**
   * The left column shows the operator, the instrument and the injection date, each
   * once, from its "Acq." key when present and from the short key otherwise.
   */
  lemma LeftColumnByLabel(acq: map<string, string>)
    ensures LeftItems(acq) ==
      FirstPresent(acq, "Acq. Operator", ["Acq. Operator", "Operator"])
      + FirstPresent(acq, "Acq. Instrument", ["Acq. Instrument", "Instrument"])
      + FirstPresent(acq, "Injection Date", ["Injection Date"])
  {
    var op, ins := "Acq. Operator", "Acq. Instrument";
    assert LeftMap[0] == (op, op) && LeftMap[1] == ("Operator", op);
    assert LeftMap[2] == (ins, ins) && LeftMap[3] == ("Instrument", ins);
    assert LeftMap[0..] == LeftMap;
    var none: set<string> := {};
    AliasPair(acq, LeftMap, 0, none, op, "Operator", op);
    var seen1 := if op in acq || "Operator" in acq then none + {op} else none;
    assert seen1 <= {op};
    AliasPair(acq, LeftMap, 2, seen1, ins, "Instrument", ins);
    var seen2 := if ins in acq || "Instrument" in acq then seen1 + {ins} else seen1;
    assert seen2 <= {op, ins};
    InjectionDateItem(acq, seen2);
    var fp1, fp2 := FirstPresent(acq, op, [op, "Operator"]), FirstPresent(acq, ins, [ins, "Instrument"]);
    var rest1, rest2 := Layout(acq, LeftMap[2..], seen1).0, Layout(acq, LeftMap[4..], seen2).0;
    assert LeftItems(acq) == fp1 + rest1;
    assert rest1 == fp2 + rest2;
    ItemsAssoc(fp1, fp2, rest2);
  }

  lemma ItemsAssoc(a: seq<Item>, b: seq<Item>, c: seq<Item>)
    ensures a + (b + c) == a + b + c
  {
  }

  /** Two keys shown under one label: the first of them present, under that label. */
  lemma AliasPair(acq: map<string, string>, m: seq<(string, string)>, k: nat, seen: set<string>,
                  first: string, second: string, caption: string)
    requires k + 1 < |m| && m[k] == (first, caption) && m[k + 1] == (second, caption) && caption !in seen
    ensures Layout(acq, m[k..], seen).0 ==
      FirstPresent(acq, caption, [first, second])
      + Layout(acq, m[k + 2..], if first in acq || second in acq then seen + {caption} else seen).0
  {
    var keys := [first, second];
    assert keys[1..] == [second] && keys[1..][1..] == [];
    if first in acq {
      LayoutTake(acq, m, k, seen);
      LayoutSkip(acq, m, k + 1, seen + {caption});
    } else if second in acq {
      LayoutSkip(acq, m, k, seen);
      LayoutTake(acq, m, k + 1, seen);
      assert FirstPresent(acq, caption, keys) == FirstPresent(acq, caption, [second]);
    } else {
      LayoutSkip(acq, m, k, seen);
      LayoutSkip(acq, m, k + 1, seen);
      assert FirstPresent(acq, caption, keys) == FirstPresent(acq, caption, [second]) == [];
    }
  }


  lemma InjectionDateItem(acq: map<string, string>, seen: set<string>)
    requires "Injection Date" !in seen
    ensures Layout(acq, LeftMap[4..], seen).0 == FirstPresent(acq, "Injection Date", ["Injection Date"])
  {
    assert LeftMap[4..] == [("Injection Date", "Injection Date")];
    assert LeftMap[4..][1..] == [];
  }

  /** The labels a column marks as seen are among its own labels and those seen before. */
  lemma {:induction false} LayoutSeenWithin(acq: map<string, string>, m: seq<(string, string)>, seen: set<string>,
                                            bound: set<string>)
    requires seen <= bound && forall k :: 0 <= k < |m| ==> m[k].1 in bound
    ensures Layout(acq, m, seen).1 <= bound
    decreases |m|
  {
    if m != [] {
      assert forall k :: 0 <= k < |m| - 1 ==> m[1..][k] == m[k + 1];
      LayoutSeenWithin(acq, m[1..], seen + {m[0].1}, bound);
      LayoutSeenWithin(acq, m[1..], seen, bound);
    }
  }

  /** The entries of `m` whose key is present, each under its label. */
  function Present(acq: map<string, string>, m: seq<(string, string)>): seq<Item>
    decreases |m|
  {
    if m == [] then []
    else (if m[0].0 in acq then [Item(m[0].1, acq[m[0].0])] else []) + Present(acq, m[1..])
  }

  /** A column whose labels are all distinct and unseen shows every present entry. */
  lemma {:induction false} LayoutUnseen(acq: map<string, string>, m: seq<(string, string)>, seen: set<string>)
    requires forall k :: 0 <= k < |m| ==> m[k].1 !in seen
    requires forall j, k :: 0 <= j < k < |m| ==> m[j].1 != m[k].1
    ensures Layout(acq, m, seen).0 == Present(acq, m)
    decreases |m|
  {
    if m != [] {
      assert forall k :: 0 <= k < |m| - 1 ==> m[1..][k] == m[k + 1];
      LayoutUnseen(acq, m[1..], seen + {m[0].1});
      LayoutUnseen(acq, m[1..], seen);
    }
  }

  /**
   * The right column shows the sequence line, location, injection and injection volume
   * that are present, in that order: none of its labels is a left-column label.
   */
  lemma RightColumnByLabel(acq: map<string, string>)
    ensures RightItems(acq) == Present(acq, RightMap)
  {
    var bound := {"Acq. Operator", "Acq. Instrument", "Injection Date"};
    LayoutSeenWithin(acq, LeftMap, {}, bound);
    LayoutUnseen(acq, RightMap, Layout(acq, LeftMap, {}).1);
  }

  /**
   * No label is printed twice: each column lists distinct labels and no right-column
   * label is one of the left column's.
   */
  lemma ColumnsDisjoint(acq: map<string, string>)
    ensures forall j, k :: 0 <= j < |LeftItems(acq)| && 0 <= k < |RightItems(acq)| ==>
      LeftItems(acq)[j].caption != RightItems(acq)[k].caption
    ensures Distinct(LeftItems(acq)) && Distinct(RightItems(acq))
  {
  }

  /**
   * One of the two loops in `create_report_info_page`: the lines for the labels of `m`
   * whose key is present and whose label is not yet seen.
   */
  lemma ItemLinesCons(item: Item, rest: seq<Item>, w: nat)
    ensures ItemLines([item] + rest, w) == [ItemLine(item, w)] + ItemLines(rest, w)
  {
  }

  method LayoutColumn(acq: map<string, string>, m: seq<(string, string)>, seen0: set<string>, w: nat)
    returns (lines: seq<string>, seen: set<string>)
    ensures lines == ItemLines(Layout(acq, m, seen0).0, w)
    ensures seen == Layout(acq, m, seen0).1
  {
    lines := [];
    seen := seen0;
    for i := 0 to |m|
      invariant lines + ItemLines(Layout(acq, m[i..], seen).0, w) == ItemLines(Layout(acq, m, seen0).0, w)
      invariant Layout(acq, m[i..], seen).1 == Layout(acq, m, seen0).1
    {
      var key := m[i].0;
      var caption := m[i].1;
      if key in acq && caption !in seen {
        var item := Item(caption, acq[key]);
        LayoutTake(acq, m, i, seen);
        ItemLinesCons(item, Layout(acq, m[i + 1..], seen + {caption}).0, w);
        lines := lines + [ItemLine(item, w)];
        seen := seen + {caption};
      } else {
        LayoutSkip(acq, m, i, seen);
      }
    }
    assert m[|m|..] == [];
  }

  /** The left and right acquisition columns, as `left_items` and `right_items`. */
  method AcqInfoColumns(acq: map<string, string>) returns (left: seq<string>, right: seq<string>)
    ensures left == ItemLines(LeftItems(acq), 18)
    ensures right == ItemLines(RightItems(acq), 12)
  {
    var seen;
    left, seen := LayoutColumn(acq, LeftMap, {}, 18);
    right, seen := LayoutColumn(acq, RightMap, seen, 12);
  }

  /** Item `i` of a column, or `""` past its end. */
  function Cell(items: seq<string>, i: nat): string
  {
    if i < |items| then items[i] else ""
  }

  /** The width of the left column. */
  const LeftWidth: nat := 45

  /** `for i in range(max(len(left), len(right)))`: one row per pair `f"{left:45s}{right}"`. */
  method TwoColumnRows(left: seq<string>, right: seq<string>) returns (rows: seq<string>)
    ensures |rows| == if |left| >= |right| then |left| else |right|
    ensures forall i :: 0 <= i < |rows| ==> rows[i] == PadRight(Cell(left, i), LeftWidth) + Cell(right, i)
    ensures rows == Rows(left, right)
  {
    var n := if |left| >= |right| then |left| else |right|;
    rows := [];
    for i := 0 to n
      invariant |rows| == i
      invariant forall k :: 0 <= k < i ==> rows[k] == PadRight(Cell(left, k), LeftWidth) + Cell(right, k)
    {
      var l := if i < |left| then left[i] else "";
      var r := if i < |right| then right[i] else "";
      rows := rows + [PadRight(l, LeftWidth) + r];
    }
  }

  /** The rows `TwoColumnRows` builds. */
  function Rows(left: seq<string>, right: seq<string>): seq<string>
  {
    var n := if |left| >= |right| then |left| else |right|;
    seq(n, i requires 0 <= i < n => PadRight(Cell(left, i), LeftWidth) + Cell(right, i))
  }

  /**
   * A row starts with its left item; when that item fits the left column, the right
   * item starts at column 45, and a missing left item leaves 45 spaces.
   */
  lemma RowAlignment(l: string, r: string)
    ensures l <= PadRight(l, LeftWidth) + r
    ensures |l| <= LeftWidth ==> (PadRight(l, LeftWidth) + r)[LeftWidth..] == r
    ensures (PadRight("", LeftWidth) + r)[..LeftWidth] == Spaces(LeftWidth)
  {
    var row := PadRight(l, LeftWidth) + r;
    assert row[..|PadRight(l, LeftWidth)|] == PadRight(l, LeftWidth);
  }

  // ---------------------------------------------------------------------------------------
  // Results table of create_report_info_page
  // ---------------------------------------------------------------------------------------

  /** A row of the results the report page receives. */
  datatype MassResult = MassResult(mass: real, intensity: real)

  /**
   * A line of the page: literal text, a table row, or the deconvolution window line (the
   * number formatting, `.2f`, `.0f` and `.3f`, is not modelled).
   */
  datatype PageLine =
    | Text(text: string)
    | MassRow(caption: string, mass: real, intensity: real, relative: real)
    | WindowLine(start: real, end: real)

  /** The most components the table lists. */
  const MaxTableRows: nat := 15

  function DigitChar(d: nat): char
    requires d < 10
  {
    ('0' as int + d) as char
  }

  /** `str(n)` for a natural number. */
  function Decimal(n: nat): (s: string)
    ensures s != []
    ensures forall k :: 0 <= k < |s| ==> '0' <= s[k] <= '9'
  {
    if n < 10 then [DigitChar(n)] else Decimal(n / 10) + [DigitChar(n % 10)]
  }

  /** `chr(ord('A') + i) if i < 26 else str(i + 1)`. */
  function ComponentLabel(i: nat): (s: string)
    ensures i < 26 ==> s == [('A' as int + i) as char] && 'A' <= s[0] <= 'Z'
  {
    if i < 26 then [('A' as int + i) as char] else Decimal(i + 1)
  }

  /** Each listed component gets its own label. */
  lemma ComponentLabelsDistinct(i: nat, j: nat)
    requires i < j < 26
    ensures ComponentLabel(i) != ComponentLabel(j)
  {
    assert ComponentLabel(i)[0] != ComponentLabel(j)[0];
  }

  /** The fixed lines above the table rows. */
  function TableHead(): seq<PageLine>
  {
    [Text(SepLine), Text(Center("Detected Masses", 70)), Text(SepLine), Text(""),
     Text(PadLeft("Component", 10) + "  " + PadLeft("Molecular", 12) + "  " + PadLeft("Absolute", 12) + "  "
          + PadLeft("Relative", 10)),
     Text(PadLeft("", 10) + "  " + PadLeft("Weight", 12) + "  " + PadLeft("Abundance", 12) + "  "
          + PadLeft("Abundance", 10))]
  }

  /** The rows for `rs`, labelled by position, abundance relative to `top` in percent. */
  function MassRows(rs: seq<MassResult>, top: real): (r: seq<PageLine>)
    requires top != 0.0
    ensures |r| == |rs|
  {
    seq(|rs|, k requires 0 <= k < |rs| =>
      MassRow(ComponentLabel(k), rs[k].mass, rs[k].intensity, rs[k].intensity / top * 100.0))
  }

  /**
   * The results part of `create_report_info_page`. `None` for `results` is Python's `None`;
   * a `None` outcome is the `ZeroDivisionError` raised when the first intensity is 0.
   */
  method ResultsTable(results: Option<seq<MassResult>>) returns (lines: Option<seq<PageLine>>)
    ensures results.None? ==> lines == Some([])
    ensures results == Some([]) ==> lines == Some([Text(""), Text("No masses detected.")])
    ensures results.Some? && results.value != [] && results.value[0].intensity == 0.0 ==> lines.None?
    ensures results.Some? && results.value != [] && results.value[0].intensity != 0.0 ==>
      var rs := results.value;
      var shown := if |rs| <= MaxTableRows then rs else rs[..MaxTableRows];
      lines == Some(TableHead() + MassRows(shown, rs[0].intensity) + [Text("")])
    ensures lines == TableLines(results)
  {
    if results.None? {
      return Some([]);
    }
    var rs := results.value;
    if rs == [] {
      return Some([Text(""), Text("No masses detected.")]);
    }
    var top := rs[0].intensity;
    if top == 0.0 {
      return None;
    }
    var shown := if |rs| <= MaxTableRows then rs else rs[..MaxTableRows];
    var rows: seq<PageLine> := [];
    for i := 0 to |shown|
      invariant rows == MassRows(shown[..i], top)
    {
      var r := shown[i];
      var rel := r.intensity / top * 100.0;
      MassRowsSnoc(shown, i, top);
      rows := rows + [MassRow(ComponentLabel(i), r.mass, r.intensity, rel)];
    }
    assert shown[..|shown|] == shown;
    lines := Some(TableHead() + rows + [Text("")]);
  }

  /** The lines `ResultsTable` produces, `None` standing for the division by zero. */
  function TableLines(results: Option<seq<MassResult>>): Option<seq<PageLine>>
  {
    if results.None? then Some([])
    else if results.value == [] then Some([Text(""), Text("No masses detected.")])
    else if results.value[0].intensity == 0.0 then None
    else
      var rs := results.value;
      var shown := if |rs| <= MaxTableRows then rs else rs[..MaxTableRows];
      Some(TableHead() + MassRows(shown, rs[0].intensity) + [Text("")])
  }

  lemma MassRowsSnoc(rs: seq<MassResult>, i: nat, top: real)
    requires i < |rs| && top != 0.0
    ensures MassRows(rs[..i + 1], top)
      == MassRows(rs[..i], top) + [MassRow(ComponentLabel(i), rs[i].mass, rs[i].intensity, rs[i].intensity / top * 100.0)]
  {
  }

  /**
   * The table lists at most 15 components, labelled A, B, C, … in order, the first at
   * 100 %; when the results are ordered by falling positive intensity no row exceeds 100 %.
   */
  lemma TableRows(rs: seq<MassResult>)
    requires rs != [] && rs[0].intensity != 0.0
    ensures var shown := if |rs| <= MaxTableRows then rs else rs[..MaxTableRows];
      var rows := MassRows(shown, rs[0].intensity);
      && |rows| <= MaxTableRows
      && rows[0].relative == 100.0
      && (forall k :: 0 <= k < |rows| ==> rows[k].caption == [('A' as int + k) as char])
      && (rs[0].intensity > 0.0 && (forall k :: 0 <= k < |rs| ==> rs[k].intensity <= rs[0].intensity) ==>
            forall k :: 0 <= k < |rows| ==> rows[k].relative <= 100.0)
  {
    var top := rs[0].intensity;
    var shown := if |rs| <= MaxTableRows then rs else rs[..MaxTableRows];
    var rows := MassRows(shown, top);
    assert rows[0].relative == top / top * 100.0;
    if top > 0.0 && (forall k :: 0 <= k < |rs| ==> rs[k].intensity <= top) {
      forall k | 0 <= k < |rows|
        ensures rows[k].relative <= 100.0
      {
        assert shown[k] == rs[k];
        RatioAtMostOne(rs[k].intensity, top);
      }
    }
  }

  lemma RatioAtMostOne(x: real, top: real)
    requires 0.0 < top && x <= top
    ensures x / top * 100.0 <= 100.0
  {
    assert x / top <= 1.0;
  }

  // ---------------------------------------------------------------------------------------
  // The other sections of create_report_info_page, and the page as a whole
  // ---------------------------------------------------------------------------------------

  function Texts(s: seq<string>): (r: seq<PageLine>)
    ensures |r| == |s| && forall k :: 0 <= k < |s| ==> r[k] == Text(s[k])
  {
    seq(|s|, k requires 0 <= k < |s| => Text(s[k]))
  }

  /** `if acq_method:` on an optional string: present and non-empty. */
  predicate HasMethod(acqMethod: Option<string>)
  {
    acqMethod.Some? && acqMethod.value != []
  }

  const MethodTitle: string := "Method:      "

  /** The title block: the method line appears only for a non-empty acquisition method. */
  function HeaderLines(sampleName: string, acqMethod: Option<string>): (r: seq<string>)
    ensures |r| == if HasMethod(acqMethod) then 5 else 4
    ensures r[0] == "Spectrum Deconvolution" && r[1] == "Sample Name: " + sampleName
    ensures HasMethod(acqMethod) ==> r[2] == MethodTitle + acqMethod.value
    ensures r[|r| - 2] == "" && r[|r| - 1] == SepLine
  {
    ["Spectrum Deconvolution", "Sample Name: " + sampleName]
    + (if HasMethod(acqMethod) then [MethodTitle + acqMethod.value] else [])
    + ["", SepLine]
  }

  /** The header holds a method line exactly when the acquisition method is non-empty. */
  lemma HeaderShowsMethod(sampleName: string, acqMethod: Option<string>)
    ensures (exists k :: 0 <= k < |HeaderLines(sampleName, acqMethod)| && MethodTitle <= HeaderLines(sampleName, acqMethod)[k])
        <==> HasMethod(acqMethod)
  {
    var r := HeaderLines(sampleName, acqMethod);
    if HasMethod(acqMethod) {
      assert MethodTitle <= r[2];
    } else {
      var name := "Sample Name: " + sampleName;
      assert r == ["Spectrum Deconvolution", name, "", SepLine];
      assert name[0] == 'S' && SepLine[0] == '=' && "Spectrum Deconvolution"[0] == 'S';
      forall k | 0 <= k < |r| ensures !(MethodTitle <= r[k]) {
        assert r[k] == [] || r[k][0] != MethodTitle[0];
      }
    }
  }

  /** `acq['Method'] != acq_method`: the method of `acq.txt` differs from the shown one. */
  predicate ShowsMethodKey(acq: map<string, string>, acqMethod: Option<string>)
  {
    "Method" in acq && Some(acq["Method"]) != acqMethod
  }

  const MethodCaption: string := "Method            :"

  /** The `Method` and `Method Info` lines that follow the acquisition columns. */
  function MethodLines(acq: map<string, string>, acqMethod: Option<string>): (r: seq<string>)
    ensures |r| == (if ShowsMethodKey(acq, acqMethod) then 1 else 0) + (if "Method Info" in acq then 1 else 0)
    ensures ShowsMethodKey(acq, acqMethod) ==> r[0] == ItemLine(Item("Method", acq["Method"]), 18)
    ensures "Method Info" in acq ==> r[|r| - 1] == ItemLine(Item("Method Info", acq["Method Info"]), 18)
  {
    (if ShowsMethodKey(acq, acqMethod) then [ItemLine(Item("Method", acq["Method"]), 18)] else [])
    + (if "Method Info" in acq then [ItemLine(Item("Method Info", acq["Method Info"]), 18)] else [])
  }

  /**
   * The block repeats the method of `acq.txt` exactly when it is not the acquisition method
   * already shown. The `Method Info` line is never taken for it.
   */
  lemma MethodNotRepeated(acq: map<string, string>, acqMethod: Option<string>)
    ensures (exists k :: 0 <= k < |MethodLines(acq, acqMethod)| && MethodCaption <= MethodLines(acq, acqMethod)[k])
        <==> ShowsMethodKey(acq, acqMethod)
  {
    var r := MethodLines(acq, acqMethod);
    var m := "Method";
    var info := "Method Info";
    assert PadRight(m, 18) == m + Spaces(12);
    assert PadRight(info, 18) == info + Spaces(7);
    if ShowsMethodKey(acq, acqMethod) {
      assert r[0] == m + Spaces(12) + ": " + acq["Method"];
      assert (m + Spaces(12) + ": " + acq["Method"])[..|MethodCaption|] == MethodCaption;
    }
    if "Method Info" in acq {
      var line := r[|r| - 1];
      assert line == PadRight(info, 18) + ": " + acq["Method Info"];
      assert line[7] == PadRight(info, 18)[7] == info[7] == 'I';
      assert MethodCaption[7] == ' ';
    }
  }

  /** `if time_range:` shows the window and a blank line. */
  function WindowLines(timeRange: Option<(real, real)>): seq<PageLine>
  {
    if timeRange.Some? then [WindowLine(timeRange.value.0, timeRange.value.1), Text("")] else []
  }

  const NoParameters: string := "(default parameters)"

  /** `f"{key + ':':24s}{val}"` for each parameter, with its value already as text. */
  function ParameterRows(parameters: seq<(string, string)>): (r: seq<string>)
    ensures |r| == |parameters|
    ensures forall k :: 0 <= k < |r| ==> parameters[k].0 + ":" <= r[k]
  {
    seq(|parameters|, k requires 0 <= k < |parameters| => PadRight(parameters[k].0 + ":", 24) + parameters[k].1)
  }

  /** The parameters block, with `(default parameters)` in place of an empty mapping. */
  function ParameterLines(parameters: seq<(string, string)>): seq<string>
  {
    [Center("Deconvolution Parameters", 70), SepLine, ""]
    + (if parameters == [] then [NoParameters] else ParameterRows(parameters))
    + [""]
  }

  /**
   * Every parameter gets its own row, in order, after the three heading lines; the
   * `(default parameters)` line appears exactly when there are none.
   */
  lemma ParametersListed(parameters: seq<(string, string)>)
    ensures parameters != [] ==> ParameterLines(parameters)[3..3 + |parameters|] == ParameterRows(parameters)
    ensures NoParameters in ParameterLines(parameters) <==> parameters == []
  {
    var r := ParameterLines(parameters);
    var rows := ParameterRows(parameters);
    if parameters != [] {
      assert r == [Center("Deconvolution Parameters", 70), SepLine, ""] + rows + [""];
      assert r[3..3 + |parameters|] == rows;
      forall k | 0 <= k < |r| ensures r[k] != NoParameters {
        if 3 <= k < 3 + |rows| {
          var key := parameters[k - 3].0;
          assert r[k] == rows[k - 3] && r[k][|key|] == ':';
          assert ':' !in NoParameters;
        } else {
          assert |r[k]| != |NoParameters|;
        }
      }
    } else {
      assert r[3] == NoParameters;
    }
  }

  /** The lines above the results table, given the acquisition mapping (`acq_info or {}`). */
  function PageHead(sampleName: string, acqMethod: Option<string>, acq: map<string, string>,
                    timeRange: Option<(real, real)>, parameters: seq<(string, string)>): seq<PageLine>
  {
    Texts(HeaderLines(sampleName, acqMethod))
    + Texts(Rows(ItemLines(LeftItems(acq), 18), ItemLines(RightItems(acq), 12)))
    + Texts(MethodLines(acq, acqMethod) + ["", SepLine])
    + WindowLines(timeRange)
    + Texts(ParameterLines(parameters))
  }

  /** The window line appears on the page exactly for the given time range. */
  lemma WindowShown(sampleName: string, acqMethod: Option<string>, acq: map<string, string>,
                    timeRange: Option<(real, real)>, parameters: seq<(string, string)>, a: real, b: real)
    ensures WindowLine(a, b) in PageHead(sampleName, acqMethod, acq, timeRange, parameters)
        <==> timeRange == Some((a, b))
  {
    WindowAmongTexts(HeaderLines(sampleName, acqMethod),
                     Rows(ItemLines(LeftItems(acq), 18), ItemLines(RightItems(acq), 12)),
                     MethodLines(acq, acqMethod) + ["", SepLine], ParameterLines(parameters), timeRange, a, b);
  }

  lemma WindowAmongTexts(t1: seq<string>, t2: seq<string>, t3: seq<string>, t4: seq<string>,
                         timeRange: Option<(real, real)>, a: real, b: real)
    ensures WindowLine(a, b) in Texts(t1) + Texts(t2) + Texts(t3) + WindowLines(timeRange) + Texts(t4)
        <==> timeRange == Some((a, b))
  {
    assert WindowLine(a, b) !in Texts(t1) && WindowLine(a, b) !in Texts(t2);
    assert WindowLine(a, b) !in Texts(t3) && WindowLine(a, b) !in Texts(t4);
  }

  /** `acq_info or {}`. */
  function AcqOf(acqInfo: Option<map<string, string>>): map<string, string>
  {
    if acqInfo.Some? then acqInfo.value else map[]
  }

  /**
   * The lines of `create_report_info_page`, in order: the title block, the acquisition
   * rows, the method lines, the window, the parameters and the results table. `None` is
   * the division by a first intensity of 0.
   */
  method ReportInfoLines(sampleName: string, acqMethod: Option<string>, acqInfo: Option<map<string, string>>,
                         timeRange: Option<(real, real)>, parameters: seq<(string, string)>,
                         results: Option<seq<MassResult>>)
    returns (lines: Option<seq<PageLine>>)
    ensures lines.None? <==> results.Some? && results.value != [] && results.value[0].intensity == 0.0
    ensures lines.Some? ==> PageHead(sampleName, acqMethod, AcqOf(acqInfo), timeRange, parameters) <= lines.value
    ensures lines.Some? ==>
      lines.value[|PageHead(sampleName, acqMethod, AcqOf(acqInfo), timeRange, parameters)|..] == TableLines(results).value
  {
    var acq := AcqOf(acqInfo);
    var left, right := AcqInfoColumns(acq);
    var rows := TwoColumnRows(left, right);
    var table := ResultsTable(results);
    if table.None? {
      return None;
    }
    var head := Texts(HeaderLines(sampleName, acqMethod)) + Texts(rows)
      + Texts(MethodLines(acq, acqMethod) + ["", SepLine]) + WindowLines(timeRange) + Texts(ParameterLines(parameters));
    assert head == PageHead(sampleName, acqMethod, acq, timeRange, parameters);
    lines := Some(head + table.value);
    assert lines.value[|head|..] == table.value;
  }

  /** The most lines the page draws: line `i` sits at `0.95 - 0.017 i`, and drawing stops below 0.04. */
  const MaxDrawnLines: nat := 54

  lemma LineFits(i: nat)
    ensures 0.95 - (i as real) * 0.017 >= 0.04 <==> i < MaxDrawnLines
  {
    if i >= MaxDrawnLines {
      assert (i as real) * 0.017 >= 54.0 * 0.017;
    }
  }

  /** The drawing loop: lines are drawn top-down until one would fall below the margin. */
  method DrawnLines(lines: seq<PageLine>) returns (drawn: seq<PageLine>)
    ensures drawn <= lines
    ensures |drawn| == if |lines| <= MaxDrawnLines then |lines| else MaxDrawnLines
  {
    drawn := [];
    var i := 0;
    while i < |lines|
      invariant 0 <= i <= |lines| && i <= MaxDrawnLines
      invariant drawn == lines[..i]
    {
      var yPos := 0.95 - (i as real) * 0.017;
      LineFits(i);
      if yPos < 0.04 {
        break;
      }
      drawn := drawn + [lines[i]];
      i := i + 1;
    }
  }
}
