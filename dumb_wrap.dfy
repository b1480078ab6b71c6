/** The greedy word-wrapper of src/dumb_wrap.rs. Display widths come from a
    per-character width function `w` (the program asks the Unicode width
    tables); the scan relies only on a space being one column wide. */
module DumbWrap {
  import opened Wrappers

  /** One output piece: `Part` continues the current line, `Break` ends
      it. */
  datatype Item = Part(text: string) | Break(text: string)

  function ItemText(it: Item): string
  {
    match it
    case Part(t) => t
    case Break(t) => t
  }

  /** `str::width`: the sum of the character widths. */
  function Width(w: char -> nat, s: string): nat
  {
    if s == [] then 0 else Width(w, s[..|s| - 1]) + w(s[|s| - 1])
  }

  /** The width `split_w` compares with its limit for a scanned prefix: a
      trailing space does not count. */
  function FitWidth(w: char -> nat, p: string): int
  {
    Width(w, p) - (if p != [] && p[|p| - 1] == ' ' then 1 else 0)
  }

  predicate Fits(w: char -> nat, s: string, k: nat, at: nat)
    requires k <= |s|
  {
    FitWidth(w, s[..k]) <= at
  }

  /** The position of the last space among the first `k` characters. */
  function LastSpace(s: string, k: nat): (r: Option<nat>)
    requires k <= |s|
    ensures r.Some? ==> r.value < k && s[r.value] == ' '
    ensures r.Some? ==> forall j :: r.value < j < k ==> s[j] != ' '
    ensures r.None? ==> forall j :: 0 <= j < k ==> s[j] != ' '
  {
    if k == 0 then None
    else if s[k - 1] == ' ' then Some(k - 1)
    else LastSpace(s, k - 1)
  }

  /** The longest prefix of `s`, of at most `k` characters, that fits in
      `at` columns (a reference definition, searching from the end). */
  function LongestFitBelow(w: char -> nat, s: string, at: nat, k: nat): (r: nat)
    requires k <= |s|
    ensures r <= k && Fits(w, s, r, at)
    ensures forall j :: r < j <= k ==> !Fits(w, s, j, at)
  {
    if k == 0 then (assert s[..0] == []; 0)
    else if Fits(w, s, k, at) then k
    else LongestFitBelow(w, s, at, k - 1)
  }

  function LongestFit(w: char -> nat, s: string, at: nat): (k: nat)
    ensures k <= |s|
  {
    LongestFitBelow(w, s, at, |s|)
  }

  lemma WidthSnoc(w: char -> nat, s: string, k: nat)
    requires k < |s|
    ensures Width(w, s[..k + 1]) == Width(w, s[..k]) + w(s[k])
  {
    assert s[..k + 1][..k] == s[..k];
  }

  /** A longer prefix never fits better. */
  lemma {:induction false} FitsShorter(w: char -> nat, s: string, at: nat, j: nat, k: nat)
    requires w(' ') == 1 && j <= k <= |s| && Fits(w, s, k, at)
    ensures Fits(w, s, j, at)
    decreases k - j
  {
    if j < k {
      WidthSnoc(w, s, k - 1);
      assert s[..k][..k - 1] == s[..k - 1];
      if k - 1 > 0 {
        assert s[..k - 1][k - 2] == s[k - 2];
      }
      FitsShorter(w, s, at, j, k - 1);
    }
  }

  /** The scan of `split_w` from index `i`, with the width and the last
      space of the first `i` characters: it stops before the first character
      whose prefix no longer fits and returns (last space, end of the
      accepted prefix). */
  function Scan(w: char -> nat, s: string, at: nat, i: nat, width: nat, lastSpace: Option<nat>): (r: (Option<nat>, nat))
    requires i <= |s| && (lastSpace.Some? ==> lastSpace.value < i)
    ensures i <= r.1 <= |s| && (r.0.Some? ==> r.0.value < r.1)
    decreases |s| - i
  {
    if i == |s| then (lastSpace, i)
    else
      var width' := width + w(s[i]);
      var lastSpace' := if s[i] == ' ' then Some(i) else lastSpace;
      var fit := if s[i] == ' ' then width' - 1 else width';
      if fit <= at then Scan(w, s, at, i + 1, width', lastSpace')
      else (lastSpace, i)
  }

  /** The scan finds the longest fitting prefix and the last space in it. */
  lemma {:induction false} ScanFindsLongestFit(w: char -> nat, s: string, at: nat, i: nat, width: nat, lastSpace: Option<nat>)
    requires w(' ') == 1 && i <= |s| && Fits(w, s, i, at)
    requires width == Width(w, s[..i]) && lastSpace == LastSpace(s, i)
    ensures Scan(w, s, at, i, width, lastSpace) == (LastSpace(s, LongestFit(w, s, at)), LongestFit(w, s, at))
    decreases |s| - i
  {
    if i == |s| {
      assert LongestFit(w, s, at) == |s|;
    } else {
      WidthSnoc(w, s, i);
      assert s[..i + 1][i] == s[i];
      if Fits(w, s, i + 1, at) {
        ScanFindsLongestFit(w, s, at, i + 1, width + w(s[i]), if s[i] == ' ' then Some(i) else lastSpace);
      } else {
        forall j | i < j <= |s|
          ensures !Fits(w, s, j, at)
        {
          if Fits(w, s, j, at) {
            FitsShorter(w, s, at, i + 1, j);
          }
        }
        LongestFitIs(w, s, at, |s|, i);
      }
    }
  }

  lemma {:induction false} LongestFitIs(w: char -> nat, s: string, at: nat, k: nat, i: nat)
    requires i <= k <= |s| && Fits(w, s, i, at)
    requires forall j :: i < j <= k ==> !Fits(w, s, j, at)
    ensures LongestFitBelow(w, s, at, k) == i
    decreases k
  {
    if k > i {
      LongestFitIs(w, s, at, k - 1, i);
    }
  }

  /** `split_w`: split `s` at the last space within the longest prefix that
      fits in `at` columns, dropping that space; without such a space split
      mid-word after the fitting prefix; keep `s` whole when it all fits. */
  function SplitW(w: char -> nat, s: string, at: nat): (r: (string, string))
    requires w(' ') == 1
  {
    var (soft, hard) := Scan(w, s, at, 0, 0, None);
    match soft
    case None => (s[..hard], s[hard..])
    case Some(sp) => if hard == |s| then (s, "") else (s[..sp], s[sp + 1..])
  }

  /** What `split_w` computes, against the reference definitions of the
      longest fitting prefix and of the last space in it. */
  lemma SplitWMeaning(w: char -> nat, s: string, at: nat)
    requires w(' ') == 1
    ensures var k := LongestFit(w, s, at);
      match LastSpace(s, k)
      case None => SplitW(w, s, at) == (s[..k], s[k..])
      case Some(sp) => SplitW(w, s, at) == (if k == |s| then (s, "") else (s[..sp], s[sp + 1..]))
  {
    assert s[..0] == [];
    ScanFindsLongestFit(w, s, at, 0, 0, None);
  }

  /** The two shapes of the result: the halves make up `s`, or they make up
      `s` with exactly one space between them removed, and then the right
      half is non-empty. */
  lemma SplitWForms(w: char -> nat, s: string, at: nat)
    requires w(' ') == 1
    ensures IsSplit(s, SplitW(w, s, at).0, SplitW(w, s, at).1)
  {
    SplitWMeaning(w, s, at);
    var k := LongestFit(w, s, at);
    var (l, r) := SplitW(w, s, at);
    match LastSpace(s, k)
    case None =>
      assert l + r == s;
    case Some(sp) =>
      if k == |s| {
        assert l + r == s;
      } else {
        assert l + " " + r == s;
      }
  }

  /** The left half fits in `at` columns, except that `s` is kept whole
      when only its trailing space goes past the limit. */
  lemma SplitWWidth(w: char -> nat, s: string, at: nat)
    requires w(' ') == 1
    ensures var (l, r) := SplitW(w, s, at);
      Width(w, l) <= at || (l == s && s[|s| - 1] == ' ' && Width(w, s) == at + 1)
  {
    SplitWMeaning(w, s, at);
    var k := LongestFit(w, s, at);
    match LastSpace(s, k)
    case None =>
      FitWithoutSpace(w, s, at, k);
    case Some(sp) =>
      if k == |s| {
        assert s[..k] == s;
      } else {
        FitBeforeSpace(w, s, at, k, sp);
      }
  }

  /** A fitting prefix with no space in it is within the limit. */
  lemma FitWithoutSpace(w: char -> nat, s: string, at: nat, k: nat)
    requires k <= |s| && Fits(w, s, k, at) && LastSpace(s, k).None?
    ensures Width(w, s[..k]) <= at
  {
    if k > 0 {
      assert s[..k][k - 1] == s[k - 1];
    }
  }

  /** The part before the last space of a fitting prefix is within the
      limit: the space itself is what the scan does not count. */
  lemma FitBeforeSpace(w: char -> nat, s: string, at: nat, k: nat, sp: nat)
    requires w(' ') == 1 && k <= |s| && Fits(w, s, k, at) && LastSpace(s, k) == Some(sp)
    ensures Width(w, s[..sp]) <= at
  {
    FitsShorter(w, s, at, sp + 1, k);
    WidthSnoc(w, s, sp);
    assert s[..sp + 1][sp] == ' ';
  }

  /** When the first character does not fit, nothing is taken. */
  lemma SplitWFirstTooWide(w: char -> nat, s: string, at: nat)
    requires w(' ') == 1 && s != [] && s[0] != ' ' && w(s[0]) > at
    ensures SplitW(w, s, at) == ("", s)
  {
    SplitWMeaning(w, s, at);
    WidthSnoc(w, s, 0);
    assert s[..0] == [];
    assert !Fits(w, s, 1, at);
    forall j | 1 <= j <= |s|
      ensures !Fits(w, s, j, at)
    {
      if Fits(w, s, j, at) {
        FitsShorter(w, s, at, 1, j);
      }
    }
    LongestFitIs(w, s, at, |s|, 0);
  }

  /** The width table of the examples: control characters are zero columns
      wide, every other character one (exact for ASCII and Latin-1, which
      covers the examples). */
  function NarrowWidth(c: char): nat
  {
    if c < ' ' || ('\U{7F}' <= c <= '\U{9F}') then 0 else 1
  }

  predicate Printable(s: string)
  {
    forall i :: 0 <= i < |s| ==> NarrowWidth(s[i]) == 1
  }

  lemma {:induction false} PrintableWidth(s: string)
    requires Printable(s)
    ensures Width(NarrowWidth, s) == |s|
  {
    if s != [] {
      PrintableWidth(s[..|s| - 1]);
    }
  }

  /** Under the narrow table the longest fitting prefix is read off the
      characters at its end: `k` columns fit and `k + 1` do not. */
  lemma NarrowLongestFit(s: string, at: nat, k: nat)
    requires Printable(s) && k <= |s|
    requires k == 0 || k - (if s[k - 1] == ' ' then 1 else 0) <= at
    requires k == |s| || k + 1 - (if s[k] == ' ' then 1 else 0) > at
    ensures LongestFit(NarrowWidth, s, at) == k
  {
    assert Printable(s[..k]);
    PrintableWidth(s[..k]);
    if k == 0 {
      assert s[..k] == [];
    } else {
      assert s[..k][k - 1] == s[k - 1];
    }
    if k < |s| {
      assert Printable(s[..k + 1]);
      PrintableWidth(s[..k + 1]);
      assert s[..k + 1][k] == s[k];
      assert !Fits(NarrowWidth, s, k + 1, at);
      forall j | k < j <= |s|
        ensures !Fits(NarrowWidth, s, j, at)
      {
        if Fits(NarrowWidth, s, j, at) {
          FitsShorter(NarrowWidth, s, at, k + 1, j);
        }
      }
    }
    LongestFitIs(NarrowWidth, s, at, |s|, k);
  }

  lemma {:induction false} LastSpaceIs(s: string, k: nat, sp: nat)
    requires sp < k <= |s| && s[sp] == ' '
    requires forall j :: sp < j < k ==> s[j] != ' '
    ensures LastSpace(s, k) == Some(sp)
    decreases k
  {
    if k - 1 > sp {
      LastSpaceIs(s, k - 1, sp);
    }
  }

  lemma {:induction false} NoSpaceBelow(s: string, k: nat)
    requires k <= |s| && forall j :: 0 <= j < k ==> s[j] != ' '
    ensures LastSpace(s, k) == None
    decreases k
  {
    if k > 0 {
      NoSpaceBelow(s, k - 1);
    }
  }

  /** Under the narrow table, when the longest fit of `k` characters is
      short of the whole string and its last space is at `sp`, the split
      drops that space. */
  lemma NarrowSplitAtSpace(s: string, at: nat, k: nat, sp: nat)
    requires Printable(s) && sp < k < |s| && s[sp] == ' '
    requires forall j :: sp < j < k ==> s[j] != ' '
    requires k - (if s[k - 1] == ' ' then 1 else 0) <= at
    requires k + 1 - (if s[k] == ' ' then 1 else 0) > at
    ensures SplitW(NarrowWidth, s, at) == (s[..sp], s[sp + 1..])
  {
    SplitWMeaning(NarrowWidth, s, at);
    NarrowLongestFit(s, at, k);
    LastSpaceIs(s, k, sp);
  }

  /** Under the narrow table, a longest fit of `k` characters without a
      space splits right after them. */
  lemma NarrowSplitNoSpace(s: string, at: nat, k: nat)
    requires Printable(s) && k <= |s| && k <= at
    requires forall j :: 0 <= j < k ==> s[j] != ' '
    requires k == |s| || k + 1 - (if s[k] == ' ' then 1 else 0) > at
    ensures SplitW(NarrowWidth, s, at) == (s[..k], s[k..])
  {
    SplitWMeaning(NarrowWidth, s, at);
    NarrowLongestFit(s, at, k);
    NoSpaceBelow(s, k);
  }

  /** Under the narrow table, a string that fits is kept whole. */
  lemma NarrowSplitWhole(s: string, at: nat)
    requires Printable(s) && |s| - (if s != [] && s[|s| - 1] == ' ' then 1 else 0) <= at
    ensures SplitW(NarrowWidth, s, at) == (s, [])
  {
    SplitWMeaning(NarrowWidth, s, at);
    NarrowLongestFit(s, at, |s|);
    assert s[..|s|] == s && s[|s|..] == [];
  }

  /** Slicing a string made of two parts around a space. */
  lemma PartsAround(s: string, p: string, q: string)
    requires s == p + " " + q
    ensures s[..|p|] == p && s[|p| + 1..] == q
  {
  }

  /** Slicing a string made of two parts. */
  lemma PartsApart(s: string, p: string, q: string)
    requires s == p + q
    ensures s[..|p|] == p && s[|p|..] == q
  {
  }

  /** Both example strings: 32 one-column characters with spaces at 2, 6,
      13, 22 and 25. */
  predicate ExampleShape(s: string)
  {
    && |s| == 32 && Printable(s)
    && forall i :: 0 <= i < |s| ==> (s[i] == ' ' <==> i == 2 || i == 6 || i == 13 || i == 22 || i == 25)
  }

  /** The split table shared by `normal_split` and `aaaaaa`, over any
      string of that shape. */
  lemma ExampleSplitsNoSpace(s: string)
    requires ExampleShape(s)
    ensures SplitW(NarrowWidth, s, 0) == ([], s)
    ensures SplitW(NarrowWidth, s, 1) == (s[..1], s[1..])
  {
    NarrowSplitNoSpace(s, 0, 0);
    assert s[..0] == [] && s[0..] == s;
    NarrowSplitNoSpace(s, 1, 1);
  }

  lemma ExampleSplitsFirstWord(s: string)
    requires ExampleShape(s)
    ensures SplitW(NarrowWidth, s, 4) == (s[..2], s[3..])
    ensures SplitW(NarrowWidth, s, 6) == (s[..6], s[7..])
    ensures SplitW(NarrowWidth, s, 7) == (s[..6], s[7..])
    ensures SplitW(NarrowWidth, s, 12) == (s[..6], s[7..])
  {
    NarrowSplitAtSpace(s, 4, 4, 2);
    NarrowSplitAtSpace(s, 6, 7, 6);
    NarrowSplitAtSpace(s, 7, 7, 6);
    NarrowSplitAtSpace(s, 12, 12, 6);
  }

  lemma ExampleSplitsLater(s: string)
    requires ExampleShape(s)
    ensures SplitW(NarrowWidth, s, 13) == (s[..13], s[14..])
    ensures SplitW(NarrowWidth, s, 18) == (s[..13], s[14..])
    ensures SplitW(NarrowWidth, s, 24) == (s[..22], s[23..])
    ensures SplitW(NarrowWidth, s, 19038949) == (s, [])
  {
    NarrowSplitAtSpace(s, 13, 14, 13);
    NarrowSplitAtSpace(s, 18, 18, 13);
    NarrowSplitAtSpace(s, 24, 24, 22);
    NarrowSplitWhole(s, 19038949);
  }

  const Kate: string := "DO NOT BECOME ADDICTED TO OXYGEN"

  /** The `normal_split` table. */
  lemma NormalSplit(s: string)
    requires s == Kate
    ensures SplitW(NarrowWidth, s, 0) == ("", "DO NOT BECOME ADDICTED TO OXYGEN")
    ensures SplitW(NarrowWidth, s, 1) == ("D", "O NOT BECOME ADDICTED TO OXYGEN")
    ensures SplitW(NarrowWidth, s, 4) == ("DO", "NOT BECOME ADDICTED TO OXYGEN")
    ensures SplitW(NarrowWidth, s, 6) == ("DO NOT", "BECOME ADDICTED TO OXYGEN")
    ensures SplitW(NarrowWidth, s, 7) == ("DO NOT", "BECOME ADDICTED TO OXYGEN")
    ensures SplitW(NarrowWidth, s, 12) == ("DO NOT", "BECOME ADDICTED TO OXYGEN")
    ensures SplitW(NarrowWidth, s, 13) == ("DO NOT BECOME", "ADDICTED TO OXYGEN")
    ensures SplitW(NarrowWidth, s, 18) == ("DO NOT BECOME", "ADDICTED TO OXYGEN")
    ensures SplitW(NarrowWidth, s, 24) == ("DO NOT BECOME ADDICTED", "TO OXYGEN")
    ensures SplitW(NarrowWidth, s, 19038949) == ("DO NOT BECOME ADDICTED TO OXYGEN", "")
  {
    KateShape(s);
    ExampleSplitsNoSpace(s);
    ExampleSplitsFirstWord(s);
    ExampleSplitsLater(s);
    KateFrontSlices(s);
    KateBackSlices(s);
  }

  lemma KateShape(s: string)
    requires s == Kate
    ensures ExampleShape(s)
  {
  }

  lemma KateFrontSlices(s: string)
    requires s == Kate
    ensures s[..1] == "D" && s[1..] == "O NOT BECOME ADDICTED TO OXYGEN"
    ensures s[..2] == "DO" && s[3..] == "NOT BECOME ADDICTED TO OXYGEN"
    ensures s[..6] == "DO NOT" && s[7..] == "BECOME ADDICTED TO OXYGEN"
  {
    KateAt1(s);
    PartsApart(s, "D", "O NOT BECOME ADDICTED TO OXYGEN");
    KateAt2(s);
    PartsAround(s, "DO", "NOT BECOME ADDICTED TO OXYGEN");
    KateAt6(s);
    PartsAround(s, "DO NOT", "BECOME ADDICTED TO OXYGEN");
  }

  lemma KateAt1(s: string)
    requires s == Kate
    ensures s == "D" + "O NOT BECOME ADDICTED TO OXYGEN"
  {
  }

  lemma KateAt2(s: string)
    requires s == Kate
    ensures s == "DO" + " " + "NOT BECOME ADDICTED TO OXYGEN"
  {
  }

  lemma KateAt6(s: string)
    requires s == Kate
    ensures s == "DO NOT" + " " + "BECOME ADDICTED TO OXYGEN"
  {
  }

  lemma KateBackSlices(s: string)
    requires s == Kate
    ensures s[..13] == "DO NOT BECOME" && s[14..] == "ADDICTED TO OXYGEN"
    ensures s[..22] == "DO NOT BECOME ADDICTED" && s[23..] == "TO OXYGEN"
  {
    KateAt13(s);
    PartsAround(s, "DO NOT BECOME", "ADDICTED TO OXYGEN");
    KateAt22(s);
    PartsAround(s, "DO NOT BECOME ADDICTED", "TO OXYGEN");
  }

  lemma KateAt13(s: string)
    requires s == Kate
    ensures s == "DO NOT BECOME" + " " + "ADDICTED TO OXYGEN"
  {
  }

  lemma KateAt22(s: string)
    requires s == Kate
    ensures s == "DO NOT BECOME ADDICTED" + " " + "TO OXYGEN"
  {
  }

  const Accents: string := "áá ááá áááááá áááááááá áá áááááá"

  /** The `aaaaaa` table: the same splits over two-byte characters, which
      are positions in the string, not bytes. */
  lemma AccentSplit(s: string)
    requires s == Accents
    ensures SplitW(NarrowWidth, s, 0) == ("", "áá ááá áááááá áááááááá áá áááááá")
    ensures SplitW(NarrowWidth, s, 1) == ("á", "á ááá áááááá áááááááá áá áááááá")
    ensures SplitW(NarrowWidth, s, 4) == ("áá", "ááá áááááá áááááááá áá áááááá")
    ensures SplitW(NarrowWidth, s, 6) == ("áá ááá", "áááááá áááááááá áá áááááá")
    ensures SplitW(NarrowWidth, s, 7) == ("áá ááá", "áááááá áááááááá áá áááááá")
    ensures SplitW(NarrowWidth, s, 12) == ("áá ááá", "áááááá áááááááá áá áááááá")
    ensures SplitW(NarrowWidth, s, 13) == ("áá ááá áááááá", "áááááááá áá áááááá")
    ensures SplitW(NarrowWidth, s, 18) == ("áá ááá áááááá", "áááááááá áá áááááá")
    ensures SplitW(NarrowWidth, s, 24) == ("áá ááá áááááá áááááááá", "áá áááááá")
    ensures SplitW(NarrowWidth, s, 19038949) == ("áá ááá áááááá áááááááá áá áááááá", "")
  {
    AccentShape(s);
    ExampleSplitsNoSpace(s);
    ExampleSplitsFirstWord(s);
    ExampleSplitsLater(s);
    AccentFrontSlices(s);
    AccentMiddleSlices(s);
    AccentBackSlices(s);
  }

  lemma AccentShape(s: string)
    requires s == Accents
    ensures ExampleShape(s)
  {
  }

  lemma AccentFrontSlices(s: string)
    requires s == Accents
    ensures s[..1] == "á" && s[1..] == "á ááá áááááá áááááááá áá áááááá"
    ensures s[..2] == "áá" && s[3..] == "ááá áááááá áááááááá áá áááááá"
  {
    AccentAt1(s);
    PartsApart(s, "á", "á ááá áááááá áááááááá áá áááááá");
    AccentAt2(s);
    PartsAround(s, "áá", "ááá áááááá áááááááá áá áááááá");
  }

  lemma AccentAt1(s: string)
    requires s == Accents
    ensures s == "á" + "á ááá áááááá áááááááá áá áááááá"
  {
  }

  lemma AccentAt2(s: string)
    requires s == Accents
    ensures s == "áá" + " " + "ááá áááááá áááááááá áá áááááá"
  {
  }

  lemma AccentMiddleSlices(s: string)
    requires s == Accents
    ensures s[..6] == "áá ááá" && s[7..] == "áááááá áááááááá áá áááááá"
  {
    AccentAt6(s);
    PartsAround(s, "áá ááá", "áááááá áááááááá áá áááááá");
  }

  lemma AccentAt6(s: string)
    requires s == Accents
    ensures s == "áá ááá" + " " + "áááááá áááááááá áá áááááá"
  {
  }

  lemma AccentBackSlices(s: string)
    requires s == Accents
    ensures s[..13] == "áá ááá áááááá" && s[14..] == "áááááááá áá áááááá"
    ensures s[..22] == "áá ááá áááááá áááááááá" && s[23..] == "áá áááááá"
  {
    AccentAt13(s);
    PartsAround(s, "áá ááá áááááá", "áááááááá áá áááááá");
    AccentAt22(s);
    PartsAround(s, "áá ááá áááááá áááááááá", "áá áááááá");
  }

  lemma AccentAt13(s: string)
    requires s == Accents
    ensures s == "áá ááá áááááá" + " " + "áááááááá áá áááááá"
  {
  }

  lemma AccentAt22(s: string)
    requires s == Accents
    ensures s == "áá ááá áááááá áááááááá" + " " + "áá áááááá"
  {
  }

  /** The wrapper's state: the line width, the columns already used on the
      current line, what is left of the current chunk, and the chunks after
      it. */
  datatype WrapState = WrapState(max: nat, spent: nat, curr: string, rest: seq<string>)

  /** `iter.next().unwrap_or("")`. */
  function NextChunk(rest: seq<string>): (string, seq<string>)
  {
    if rest == [] then ("", []) else (rest[0], rest[1..])
  }

  /** `Wrap::new`: the first chunk becomes current, on an empty line of
      width `max`, and all the chunks' text is yet to be emitted. */
  function NewWrap(max: nat, chunks: seq<string>): (st: WrapState)
    requires |chunks| >= 1
    ensures st.max == max && st.spent == 0 && st.spent <= st.max
    ensures Text(st) == Concat(chunks)
  {
    WrapState(max, 0, chunks[0], chunks[1..])
  }

  /** One call of `Wrap::next`. The columns used never exceed the line
      width, so `max - spent` cannot underflow, and every `Break` starts a
      fresh line. */
  function WrapStep(w: char -> nat, st: WrapState): (r: (Option<Item>, WrapState))
    requires w(' ') == 1 && st.spent <= st.max
    ensures r.1.max == st.max && r.1.spent <= st.max
    ensures r.0.None? <==> st.curr == ""
    ensures r.0.None? ==> r.1 == st
    ensures r.0.Some? && r.0.value.Break? ==> r.1.spent == 0
  {
    if st.curr == "" then (None, st)
    else
      var (l, r) := SplitW(w, st.curr, st.max - st.spent);
      var (it, st') := Advance(st, l, r, st.spent + Width(w, l));
      (Some(it), st')
  }

  /** The bookkeeping of `Wrap::next` once the current chunk is split into
      `l` and `r`, with `spent` the columns used including `l`. */
  function Advance(st: WrapState, l: string, r: string, spent: nat): (Item, WrapState)
  {
    var (next, rest) := NextChunk(st.rest);
    if st.max > spent then
      if r == "" then (Part(l), WrapState(st.max, spent, next, rest))
      else (Break(l), WrapState(st.max, 0, r, st.rest))
    else if r == "" then (Break(l), WrapState(st.max, 0, next, rest))
    else (Break(l), WrapState(st.max, 0, r, st.rest))
  }

  /** The halves of a split, in either shape `split_w` returns. */
  predicate IsSplit(s: string, l: string, r: string)
  {
    l + r == s || (r != "" && l + " " + r == s)
  }

  /** A `Part` is the whole current chunk, emitted only while the line has
      room left: the next chunk becomes current and the columns carry
      over. */
  lemma WrapStepPart(w: char -> nat, st: WrapState)
    requires w(' ') == 1 && st.spent <= st.max
    ensures var (it, st') := WrapStep(w, st);
      it.Some? && it.value.Part? ==>
        && it.value.text == st.curr
        && st'.spent == st.spent + Width(w, st.curr) < st.max
        && (st'.curr, st'.rest) == NextChunk(st.rest)
  {
    if st.curr != "" {
      SplitWForms(w, st.curr, st.max - st.spent);
    }
  }

  function Concat(ss: seq<string>): string
  {
    if ss == [] then "" else ss[0] + Concat(ss[1..])
  }

  /** All the text the wrapper has yet to emit. */
  function Text(st: WrapState): string
  {
    st.curr + Concat(st.rest)
  }

  lemma AdvanceText(st: WrapState, l: string, r: string, spent: nat)
    requires IsSplit(st.curr, l, r)
    ensures var (it, st') := Advance(st, l, r, spent);
      Text(st) == ItemText(it) + Text(st') || (it.Break? && Text(st) == ItemText(it) + " " + Text(st'))
  {
    var (it, st') := Advance(st, l, r, spent);
    if r == "" {
      assert l == st.curr;
      if st.rest != [] {
        assert Concat(st.rest) == st.rest[0] + Concat(st.rest[1..]);
      }
      assert Text(st) == l + Text(st');
    } else if l + r == st.curr {
      assert Text(st) == l + (r + Concat(st.rest));
    } else {
      assert Text(st) == l + " " + (r + Concat(st.rest));
    }
  }

  /** No text is lost or reordered: each step emits a prefix of what is
      left, dropping at most the one space a `Break` breaks at; a `Part`
      drops nothing. */
  lemma WrapStepText(w: char -> nat, st: WrapState)
    requires w(' ') == 1 && st.spent <= st.max && st.curr != ""
    ensures var (it, st') := WrapStep(w, st);
      Text(st) == ItemText(it.value) + Text(st') || (it.value.Break? && Text(st) == ItemText(it.value) + " " + Text(st'))
  {
    WrapStepAdvance(w, st);
    var sp := SplitW(w, st.curr, st.max - st.spent);
    AdvanceText(st, sp.0, sp.1, st.spent + Width(w, sp.0));
  }

  function TotalLength(ss: seq<string>): nat
  {
    if ss == [] then 0 else |ss[0]| + TotalLength(ss[1..])
  }

  /** Every character of `s` is at most `max` columns wide. */
  predicate LineFits(w: char -> nat, s: string, max: nat)
  {
    forall i :: 0 <= i < |s| ==> w(s[i]) <= max
  }

  /** Every character left is at most a line wide. */
  predicate CharsFit(w: char -> nat, st: WrapState)
  {
    LineFits(w, st.curr, st.max) && forall i :: 0 <= i < |st.rest| ==> LineFits(w, st.rest[i], st.max)
  }

  /** The text left to wrap: the characters of the current chunk and of
      the chunks after it. */
  function Measure(st: WrapState): nat
  {
    |st.curr| + TotalLength(st.rest)
  }

  /** The right half of a split is a suffix of the string, equal to it
      only when nothing was taken. */
  lemma SplitSuffix(s: string, l: string, r: string)
    requires IsSplit(s, l, r)
    ensures |r| <= |s| && r == s[|s| - |r|..] && (|r| < |s| || r == s)
  {
    if l + r == s {
      assert s[|s| - |r|..] == (l + r)[|l|..];
    } else {
      assert s[|s| - |r|..] == (l + " " + r)[|l| + 1..];
    }
  }

  /** Pulling the next chunk keeps every character fitting and takes that
      chunk's length off the total. */
  lemma NextChunkLength(rest: seq<string>)
    ensures var (next, rest') := NextChunk(rest);
      |next| + TotalLength(rest') == TotalLength(rest)
  {
  }

  lemma NextChunkFits(w: char -> nat, st: WrapState, spent: nat)
    requires CharsFit(w, st)
    ensures var (next, rest) := NextChunk(st.rest);
      CharsFit(w, WrapState(st.max, spent, next, rest))
  {
    if st.rest != [] {
      assert LineFits(w, st.rest[0], st.max);
      forall i | 0 <= i < |st.rest[1..]|
        ensures LineFits(w, st.rest[1..][i], st.max)
      {
        assert st.rest[1..][i] == st.rest[i + 1];
      }
    } else {
      assert LineFits(w, "", st.max);
    }
  }

  /** A suffix of a fitting string fits. */
  lemma SuffixFits(w: char -> nat, s: string, r: string, max: nat)
    requires LineFits(w, s, max) && |r| <= |s| && r == s[|s| - |r|..]
    ensures LineFits(w, r, max)
  {
    forall i | 0 <= i < |r|
      ensures w(r[i]) <= max
    {
      assert r[i] == s[|s| - |r| + i];
    }
  }

  /** The bookkeeping keeps every character fitting. */
  lemma AdvanceFits(w: char -> nat, st: WrapState, l: string, r: string, spent: nat)
    requires IsSplit(st.curr, l, r) && CharsFit(w, st)
    ensures CharsFit(w, Advance(st, l, r, spent).1)
  {
    SplitSuffix(st.curr, l, r);
    if r == "" {
      NextChunkFits(w, st, if st.max > spent then spent else 0);
    } else {
      SuffixFits(w, st.curr, r, st.max);
    }
  }

  /** The bookkeeping consumes text unless the split took nothing; then it
      only resets the line. */
  lemma AdvanceShrinks(st: WrapState, l: string, r: string, spent: nat)
    requires IsSplit(st.curr, l, r) && st.curr != ""
    ensures var st' := Advance(st, l, r, spent).1;
      Measure(st') < Measure(st) || (r == st.curr && st' == st.(spent := 0))
  {
    SplitSuffix(st.curr, l, r);
    NextChunkLength(st.rest);
  }

  /** On a fresh line the split always takes something, because the first
      character fits. */
  lemma SplitWTakesOnFreshLine(w: char -> nat, s: string, max: nat)
    requires w(' ') == 1 && s != [] && w(s[0]) <= max
    ensures SplitW(w, s, max).1 != s
  {
    SplitWMeaning(w, s, max);
    WidthSnoc(w, s, 0);
    assert s[..0] == [];
    assert Fits(w, s, 1, max);
    var k := LongestFit(w, s, max);
    assert k >= 1;
    var (l, r) := SplitW(w, s, max);
    match LastSpace(s, k)
    case None =>
      assert |r| == |s| - k;
    case Some(sp) =>
      assert |r| < |s|;
  }

  /** `Wrap::next` on a non-empty chunk is the split followed by the
      bookkeeping. */
  lemma WrapStepAdvance(w: char -> nat, st: WrapState)
    requires w(' ') == 1 && st.spent <= st.max && st.curr != ""
    ensures var sp := SplitW(w, st.curr, st.max - st.spent);
      && IsSplit(st.curr, sp.0, sp.1)
      && WrapStep(w, st) == (Some(Advance(st, sp.0, sp.1, st.spent + Width(w, sp.0)).0),
                             Advance(st, sp.0, sp.1, st.spent + Width(w, sp.0)).1)
  {
    SplitWForms(w, st.curr, st.max - st.spent);
  }

  /** When every character fits on an empty line, each step either consumes
      text or, having emitted an empty `Break` at the end of a full line,
      starts a fresh one; and every character left still fits. */
  lemma WrapStepProgress(w: char -> nat, st: WrapState)
    requires w(' ') == 1 && st.spent <= st.max && st.curr != "" && CharsFit(w, st)
    ensures var st' := WrapStep(w, st).1;
      && CharsFit(w, st')
      && (Measure(st') < Measure(st) || (Measure(st') == Measure(st) && st'.spent < st.spent))
  {
    WrapStepFits(w, st);
    WrapStepShrinks(w, st);
  }

  lemma WrapStepFits(w: char -> nat, st: WrapState)
    requires w(' ') == 1 && st.spent <= st.max && st.curr != "" && CharsFit(w, st)
    ensures CharsFit(w, WrapStep(w, st).1)
  {
    WrapStepAdvance(w, st);
    SplitAdvanceFits(w, st);
  }

  /** The bookkeeping of a step keeps every character fitting. */
  lemma SplitAdvanceFits(w: char -> nat, st: WrapState)
    requires w(' ') == 1 && st.spent <= st.max && CharsFit(w, st)
    ensures var sp := SplitW(w, st.curr, st.max - st.spent);
      CharsFit(w, Advance(st, sp.0, sp.1, st.spent + Width(w, sp.0)).1)
  {
    var sp := SplitW(w, st.curr, st.max - st.spent);
    SplitWForms(w, st.curr, st.max - st.spent);
    AdvanceFits(w, st, sp.0, sp.1, st.spent + Width(w, sp.0));
  }

  lemma WrapStepShrinks(w: char -> nat, st: WrapState)
    requires w(' ') == 1 && st.spent <= st.max && st.curr != "" && LineFits(w, st.curr, st.max)
    ensures var st' := WrapStep(w, st).1;
      Measure(st') < Measure(st) || (Measure(st') == Measure(st) && st'.spent < st.spent)
  {
    if st.spent == 0 {
      ShrinksOnFreshLine(w, st);
    } else {
      ShrinksMidLine(w, st);
    }
  }

  lemma ShrinksMidLine(w: char -> nat, st: WrapState)
    requires w(' ') == 1 && 0 < st.spent <= st.max && st.curr != ""
    ensures var st' := WrapStep(w, st).1;
      Measure(st') < Measure(st) || (Measure(st') == Measure(st) && st'.spent < st.spent)
  {
    var sp := SplitW(w, st.curr, st.max - st.spent);
    WrapStepAdvance(w, st);
    AdvanceShrinks(st, sp.0, sp.1, st.spent + Width(w, sp.0));
  }

  lemma ShrinksOnFreshLine(w: char -> nat, st: WrapState)
    requires w(' ') == 1 && st.spent == 0 <= st.max && st.curr != "" && LineFits(w, st.curr, st.max)
    ensures Measure(WrapStep(w, st).1) < Measure(st)
  {
    var sp := SplitW(w, st.curr, st.max - st.spent);
    WrapStepAdvance(w, st);
    AdvanceShrinks(st, sp.0, sp.1, st.spent + Width(w, sp.0));
    FreshLineTakes(w, st);
  }

  /** On an empty line the split takes at least one character. */
  lemma FreshLineTakes(w: char -> nat, st: WrapState)
    requires w(' ') == 1 && st.spent == 0 && st.curr != "" && LineFits(w, st.curr, st.max)
    ensures SplitW(w, st.curr, st.max - st.spent).1 != st.curr
  {
    assert w(st.curr[0]) <= st.max;
    SplitWTakesOnFreshLine(w, st.curr, st.max);
  }

  /** Everything the wrapper emits from a state where every character
      fits on a line. */
  function WrapAll(w: char -> nat, st: WrapState): (items: seq<Item>)
    requires w(' ') == 1 && st.spent <= st.max && CharsFit(w, st)
    decreases Measure(st), st.spent
  {
    if st.curr == "" then []
    else
      WrapStepProgress(w, st);
      var (it, st') := WrapStep(w, st);
      [it.value] + WrapAll(w, st')
  }

  /** The chunks still unread when the wrapper stops: it stops at the first
      empty chunk, so chunks after one are never emitted. */
  function WrapLeft(w: char -> nat, st: WrapState): seq<string>
    requires w(' ') == 1 && st.spent <= st.max && CharsFit(w, st)
    decreases Measure(st), st.spent
  {
    if st.curr == "" then st.rest
    else
      WrapStepProgress(w, st);
      WrapLeft(w, WrapStep(w, st).1)
  }

  /** `t` is the texts of `items` in order, then `tail`, where one space
      may follow a `Break` and nothing follows a `Part`. */
  predicate Rejoins(items: seq<Item>, t: string, tail: string)
    decreases |items|
  {
    if items == [] then t == tail
    else
      var x := ItemText(items[0]);
      && |x| <= |t| && t[..|x|] == x
      && (Rejoins(items[1..], t[|x|..], tail)
          || (items[0].Break? && |x| < |t| && t[|x|] == ' ' && Rejoins(items[1..], t[|x| + 1..], tail)))
  }

  lemma RejoinsCons(it: Item, items: seq<Item>, t: string, t': string, tail: string)
    requires t == ItemText(it) + t' || (it.Break? && t == ItemText(it) + " " + t')
    requires Rejoins(items, t', tail)
    ensures Rejoins([it] + items, t, tail)
  {
    var x := ItemText(it);
    assert ([it] + items)[1..] == items;
    if t == x + t' {
      assert t[..|x|] == x && t[|x|..] == t';
    } else {
      assert t[..|x|] == x && t[|x|] == ' ' && t[|x| + 1..] == t';
    }
  }

  /** The whole output loses and reorders nothing: the emitted items, with
      one space dropped only at some breaks, followed by the chunks the
      wrapper never reached, are exactly the text it started from. */
  lemma {:induction false} WrapAllText(w: char -> nat, st: WrapState)
    requires w(' ') == 1 && st.spent <= st.max && CharsFit(w, st)
    ensures Rejoins(WrapAll(w, st), Text(st), Concat(WrapLeft(w, st)))
    decreases Measure(st), st.spent
  {
    if st.curr != "" {
      WrapStepProgress(w, st);
      WrapStepText(w, st);
      var (it, st') := WrapStep(w, st);
      WrapAllText(w, st');
      RejoinsCons(it.value, WrapAll(w, st'), Text(st), Text(st'), Concat(WrapLeft(w, st')));
    }
  }

  /** The iterator `Wrap`: the line width, the width table, the chunk
      iterator (its chunks and a cursor), the columns used on the current
      line and what is left of the current chunk. */
  class Wrap {
    const max: nat
    const width: char -> nat
    const chunks: seq<string>
    var next: nat
    var spent: nat
    var curr: string

    ghost predicate Valid()
      reads this
    {
      width(' ') == 1 && spent <= max && next <= |chunks|
    }

    ghost function State(): WrapState
      reads this
      requires Valid()
    {
      WrapState(max, spent, curr, chunks[next..])
    }

    /** `Wrap::new`: the chunk iterator must yield a first chunk. */
    constructor (max: nat, width: char -> nat, chunks: seq<string>)
      requires width(' ') == 1 && |chunks| >= 1
      ensures Valid() && this.width == width && State() == NewWrap(max, chunks)
    {
      this.max := max;
      this.width := width;
      this.chunks := chunks;
      next := 1;
      spent := 0;
      curr := chunks[0];
    }

    /** `iter.next().unwrap_or("")`. */
    method PullChunk() returns (c: string)
      requires next <= |chunks|
      modifies this`next
      ensures next <= |chunks| && (c, chunks[next..]) == NextChunk(old(chunks[next..]))
    {
      if next < |chunks| {
        c := chunks[next];
        next := next + 1;
        assert chunks[next..] == old(chunks[next..])[1..];
      } else {
        c := "";
      }
    }

    /** `Wrap::next`. */
    method Next() returns (item: Option<Item>)
      requires Valid()
      modifies this
      ensures Valid() && (item, State()) == WrapStep(width, old(State()))
    {
      if curr == "" {
        return None;
      }
      var (l, r) := SplitW(width, curr, max - spent);
      spent := spent + Width(width, l);
      if max > spent {
        if r == "" {
          curr := PullChunk();
          item := Some(Part(l));
        } else {
          curr := r;
          spent := 0;
          item := Some(Break(l));
        }
      } else {
        if r == "" {
          curr := PullChunk();
        } else {
          curr := r;
        }
        spent := 0;
        item := Some(Break(l));
      }
    }
  }

  /** Under the narrow table every character fits on a line of at least
      one column. */
  lemma NarrowCharsFit(st: WrapState)
    requires st.max >= 1
    ensures CharsFit(NarrowWidth, st)
  {
  }

  const Oxygen: seq<string> := ["DO NOT BECOME", " ", "ADDICTED TO OXYGEN"]

  const OxygenItems: seq<Item> := [Break("DO NOT"), Part("BECOME"), Part(" "), Break("ADDIC"), Break("TED TO"), Part("OXYGEN")]

  /** The `basic_wrap` test: the three chunks wrapped at 12 columns. */
  lemma BasicWrap(chunks: seq<string>)
    requires chunks == Oxygen
    ensures NarrowCharsFitOn(NewWrap(12, chunks))
    ensures WrapAll(NarrowWidth, NewWrap(12, chunks)) == OxygenItems
  {
    NarrowCharsFit(NewWrap(12, chunks));
    BasicWrapFrom0(NewWrap(12, chunks));
    OxygenItemsNested();
  }

  lemma OxygenItemsNested()
    ensures OxygenItems == [Break("DO NOT")] + ([Part("BECOME")] + ([Part(" ")] + ([Break("ADDIC")] + ([Break("TED TO")] + ([Part("OXYGEN")] + [])))))
  {
  }

  /** The precondition of `WrapAll` under the narrow table. */
  predicate NarrowCharsFitOn(st: WrapState)
  {
    st.spent <= st.max && CharsFit(NarrowWidth, st)
  }

  /** A step whose split leaves a remainder, with room left on the line,
      breaks there and starts a fresh line with the remainder. */
  lemma BreakStep(w: char -> nat, st: WrapState, l: string, r: string)
    requires w(' ') == 1 && st.spent <= st.max && st.curr != ""
    requires SplitW(w, st.curr, st.max - st.spent) == (l, r) && r != ""
    ensures WrapStep(w, st) == (Some(Break(l)), st.(spent := 0, curr := r))
  {
  }

  /** A step that takes the whole chunk, with room left on the line, emits
      it as a part and moves to the next chunk. */
  lemma PartStep(w: char -> nat, st: WrapState)
    requires w(' ') == 1 && st.spent <= st.max && st.curr != ""
    requires SplitW(w, st.curr, st.max - st.spent) == (st.curr, "")
    requires st.spent + Width(w, st.curr) < st.max
    ensures var (next, rest) := NextChunk(st.rest);
      WrapStep(w, st) == (Some(Part(st.curr)), WrapState(st.max, st.spent + Width(w, st.curr), next, rest))
  {
  }

  /** Under the narrow table a printable string is as wide as it is long. */
  lemma NarrowWidthIs(s: string, n: nat)
    requires Printable(s) && |s| == n
    ensures Width(NarrowWidth, s) == n
  {
    PrintableWidth(s);
  }

  lemma BasicWrapStep0(st: WrapState)
    requires st.max == 12 && st.spent == 0 && st.curr == "DO NOT BECOME"
    ensures WrapStep(NarrowWidth, st) == (Some(Break("DO NOT")), st.(spent := 0, curr := "BECOME"))
  {
    SplitAtMiddleSpace(st.curr, "DO NOT", "BECOME");
    BreakStep(NarrowWidth, st, "DO NOT", "BECOME");
  }

  /** Two six-column words around a space split at that space on a
      12-column line: the first and the fifth step of `basic_wrap`. */
  lemma SplitAtMiddleSpace(s: string, p: string, q: string)
    requires s == p + " " + q && |p| == 6 && |q| == 6 && Printable(s)
    requires forall j :: 0 <= j < |q| ==> q[j] != ' '
    ensures SplitW(NarrowWidth, s, 12) == (p, q)
  {
    assert s[6] == ' ';
    forall j | 6 < j < 13
      ensures s[j] != ' '
    {
      assert s[j] == q[j - 7];
    }
    NarrowSplitAtSpace(s, 12, 12, 6);
    PartsAround(s, p, q);
  }

  lemma BasicWrapStep1(st: WrapState)
    requires st.max == 12 && st.spent == 0 && st.curr == "BECOME" && st.rest == [" ", "ADDICTED TO OXYGEN"]
    ensures WrapStep(NarrowWidth, st) == (Some(Part("BECOME")), WrapState(12, 6, " ", ["ADDICTED TO OXYGEN"]))
  {
    assert Printable(st.curr);
    NarrowSplitWhole(st.curr, 12);
    NarrowWidthIs(st.curr, 6);
    PartStep(NarrowWidth, st);
    assert st.rest[1..] == ["ADDICTED TO OXYGEN"];
  }

  lemma BasicWrapStep2(st: WrapState)
    requires st.max == 12 && st.spent == 6 && st.curr == " " && st.rest == ["ADDICTED TO OXYGEN"]
    ensures WrapStep(NarrowWidth, st) == (Some(Part(" ")), WrapState(12, 7, "ADDICTED TO OXYGEN", []))
  {
    assert Printable(st.curr);
    NarrowSplitWhole(st.curr, 6);
    NarrowWidthIs(st.curr, 1);
    PartStep(NarrowWidth, st);
    assert st.rest[1..] == [];
  }

  lemma BasicWrapStep3(st: WrapState)
    requires st.max == 12 && st.spent == 7 && st.curr == "ADDICTED TO OXYGEN"
    ensures WrapStep(NarrowWidth, st) == (Some(Break("ADDIC")), st.(spent := 0, curr := "TED TO OXYGEN"))
  {
    BasicSplit3(st.curr);
    BreakStep(NarrowWidth, st, "ADDIC", "TED TO OXYGEN");
  }

  lemma BasicSplit3(s: string)
    requires s == "ADDICTED TO OXYGEN"
    ensures SplitW(NarrowWidth, s, 5) == ("ADDIC", "TED TO OXYGEN")
  {
    assert Printable(s);
    NarrowSplitNoSpace(s, 5, 5);
    assert s == "ADDIC" + "TED TO OXYGEN";
    PartsApart(s, "ADDIC", "TED TO OXYGEN");
  }

  lemma BasicWrapStep4(st: WrapState)
    requires st.max == 12 && st.spent == 0 && st.curr == "TED TO OXYGEN" && st.rest == []
    ensures WrapStep(NarrowWidth, st) == (Some(Break("TED TO")), WrapState(12, 0, "OXYGEN", []))
  {
    SplitAtMiddleSpace(st.curr, "TED TO", "OXYGEN");
    BreakStep(NarrowWidth, st, "TED TO", "OXYGEN");
  }

  lemma BasicWrapStep5(st: WrapState)
    requires st.max == 12 && st.spent == 0 && st.curr == "OXYGEN" && st.rest == []
    ensures WrapStep(NarrowWidth, st) == (Some(Part("OXYGEN")), WrapState(12, 6, "", []))
  {
    assert Printable(st.curr);
    NarrowSplitWhole(st.curr, 12);
    NarrowWidthIs(st.curr, 6);
    PartStep(NarrowWidth, st);
  }

  lemma BasicWrapFrom0(st: WrapState)
    requires st.max == 12 && st.spent == 0 && st.curr == "DO NOT BECOME" && st.rest == [" ", "ADDICTED TO OXYGEN"]
    ensures NarrowCharsFitOn(st) && WrapAll(NarrowWidth, st) == [Break("DO NOT")] + ([Part("BECOME")] + ([Part(" ")] + ([Break("ADDIC")] + ([Break("TED TO")] + ([Part("OXYGEN")] + [])))))
  {
    NarrowCharsFit(st);
    BasicWrapStep0(st);
    BasicWrapFrom1(WrapStep(NarrowWidth, st).1);
  }

  lemma BasicWrapFrom1(st: WrapState)
    requires st.max == 12 && st.spent == 0 && st.curr == "BECOME" && st.rest == [" ", "ADDICTED TO OXYGEN"]
    ensures NarrowCharsFitOn(st) && WrapAll(NarrowWidth, st) == [Part("BECOME")] + ([Part(" ")] + ([Break("ADDIC")] + ([Break("TED TO")] + ([Part("OXYGEN")] + []))))
  {
    NarrowCharsFit(st);
    BasicWrapStep1(st);
    BasicWrapFrom2(WrapStep(NarrowWidth, st).1);
  }

  lemma BasicWrapFrom2(st: WrapState)
    requires st.max == 12 && st.spent == 6 && st.curr == " " && st.rest == ["ADDICTED TO OXYGEN"]
    ensures NarrowCharsFitOn(st) && WrapAll(NarrowWidth, st) == [Part(" ")] + ([Break("ADDIC")] + ([Break("TED TO")] + ([Part("OXYGEN")] + [])))
  {
    NarrowCharsFit(st);
    BasicWrapStep2(st);
    BasicWrapFrom3(WrapStep(NarrowWidth, st).1);
  }

  lemma BasicWrapFrom3(st: WrapState)
    requires st.max == 12 && st.spent == 7 && st.curr == "ADDICTED TO OXYGEN" && st.rest == []
    ensures NarrowCharsFitOn(st) && WrapAll(NarrowWidth, st) == [Break("ADDIC")] + ([Break("TED TO")] + ([Part("OXYGEN")] + []))
  {
    NarrowCharsFit(st);
    BasicWrapStep3(st);
    BasicWrapFrom4(WrapStep(NarrowWidth, st).1);
  }

  lemma BasicWrapFrom4(st: WrapState)
    requires st.max == 12 && st.spent == 0 && st.curr == "TED TO OXYGEN" && st.rest == []
    ensures NarrowCharsFitOn(st) && WrapAll(NarrowWidth, st) == [Break("TED TO")] + ([Part("OXYGEN")] + [])
  {
    NarrowCharsFit(st);
    BasicWrapStep4(st);
    BasicWrapFrom5(WrapStep(NarrowWidth, st).1);
  }

  lemma BasicWrapFrom5(st: WrapState)
    requires st.max == 12 && st.spent == 0 && st.curr == "OXYGEN" && st.rest == []
    ensures NarrowCharsFitOn(st) && WrapAll(NarrowWidth, st) == [Part("OXYGEN")] + []
  {
    NarrowCharsFit(st);
    BasicWrapStep5(st);
    BasicWrapFrom6(WrapStep(NarrowWidth, st).1);
  }

  lemma BasicWrapFrom6(st: WrapState)
    requires st.max == 12 && st.spent == 6 && st.curr == "" && st.rest == []
    ensures NarrowCharsFitOn(st) && WrapAll(NarrowWidth, st) == []
  {
    NarrowCharsFit(st);
  }
}
