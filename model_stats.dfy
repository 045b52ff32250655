/**
 * Scoring of inferred contact spreadsheets against control data
 * (model_stats.py): value normalisers per column, and the per-column count of
 * agreeing rows.
 */
module ModelStats {
  import opened Wrappers
  import opened Strings

  /** `normalize_attitude`: a case-insensitive "open" becomes "Open (Terbuka)". */
  function NormalizeAttitude(term: string): (r: string)
    ensures Lower(term) == "open" ==> r == "Open (Terbuka)"
    ensures Lower(term) != "open" ==> r == term
  {
    if Lower(term) == "open" then "Open (Terbuka)" else term
  }

  /** Normalising an attitude twice is normalising it once. */
  lemma AttitudeIdempotent(term: string)
    ensures NormalizeAttitude(NormalizeAttitude(term)) == NormalizeAttitude(term)
  {
    assert |Lower("Open (Terbuka)")| != |"open"|;
  }

  /** `re.sub(r"\D", "", s)`: the digits of `s`, in order. */
  function Digits(s: string): (r: string)
    ensures |r| <= |s|
    ensures forall i :: 0 <= i < |r| ==> IsDigit(r[i])
    ensures r == [] <==> forall i :: 0 <= i < |s| ==> !IsDigit(s[i])
    ensures (forall i :: 0 <= i < |s| ==> IsDigit(s[i])) ==> r == s
  {
    if s == [] then []
    else if IsDigit(s[0]) then [s[0]] + Digits(s[1..])
    else Digits(s[1..])
  }

  /** The digits of a concatenation are the digits of each part, in order. */
  lemma {:induction false} DigitsAppend(a: string, b: string)
    ensures Digits(a + b) == Digits(a) + Digits(b)
  {
    if a == [] {
      assert a + b == b;
    } else {
      assert (a + b)[0] == a[0];
      assert (a + b)[1..] == a[1..] + b;
      DigitsAppend(a[1..], b);
    }
  }

  /** A single character is kept exactly when it is a digit. */
  lemma DigitsOne(c: char)
    ensures Digits([c]) == if IsDigit(c) then [c] else []
  {
    assert [c][1..] == [];
  }

  /** What `normalize_phone_number` returns for an input without digits. */
  const NotAPhoneNumber := "Not a phone number"

  /**
   * `normalize_phone_number`: the input's digits, in Indonesian international
   * form (a leading 0 becomes 62; a leading 8 gets 62 in front).
   */
  function NormalizePhoneNumber(phone: string): (r: string)
    ensures r == NotAPhoneNumber <==> forall i :: 0 <= i < |phone| ==> !IsDigit(phone[i])
    ensures r != NotAPhoneNumber ==>
              r != "" && r[0] != '0' && r[0] != '8' && forall i :: 0 <= i < |r| ==> IsDigit(r[i])
    ensures var d := Digits(phone);
            && (d != "" && d[0] == '0' ==> r == "62" + d[1..])
            && (d != "" && d[0] == '8' ==> r == "62" + d)
            && (d != "" && d[0] != '0' && d[0] != '8' ==> r == d)
  {
    var d := Digits(phone);
    var noZero := if |d| > 0 && d[0] == '0' then "62" + d[1..] else d;
    var withCode := if |noZero| > 0 && noZero[0] == '8' then "62" + noZero else noZero;
    assert withCode != "" ==> IsDigit(withCode[0]) && !IsDigit(NotAPhoneNumber[0]);
    if withCode == "" then NotAPhoneNumber else withCode
  }

  /** Normalising a phone number twice is normalising it once. */
  lemma PhoneNumberIdempotent(phone: string)
    ensures NormalizePhoneNumber(NormalizePhoneNumber(phone)) == NormalizePhoneNumber(phone)
  {
    var r := NormalizePhoneNumber(phone);
    if r == NotAPhoneNumber {
      assert !IsDigit(NotAPhoneNumber[0]);
      assert forall i :: 0 <= i < |r| ==> !IsDigit(r[i]);
    } else {
      assert Digits(r) == r;
    }
  }

  /** `s.replace(from, to)` for single characters. */
  function ReplaceChar(s: string, from: char, to: char): (r: string)
    ensures |r| == |s|
    ensures forall i :: 0 <= i < |s| ==> r[i] == if s[i] == from then to else s[i]
  {
    if s == [] then [] else [if s[0] == from then to else s[0]] + ReplaceChar(s[1..], from, to)
  }

  /** `s.split(c)[0]`: the text before the first `c`, or all of `s`. */
  function BeforeFirst(s: string, c: char): (r: string)
    ensures r <= s && c !in r
    ensures |r| == |s| || s[|r|] == c
  {
    if s == [] || s[0] == c then [] else [s[0]] + BeforeFirst(s[1..], c)
  }

  /** `normalize_persona`: "/" becomes "&", and only the first space-separated part is kept. */
  function NormalizePersona(term: string): (r: string)
    ensures '/' !in r && ' ' !in r
    ensures r <= ReplaceChar(term, '/', '&')
    ensures |r| == |term| || term[|r|] == ' '
  {
    var replaced := ReplaceChar(term, '/', '&');
    var r := BeforeFirst(replaced, ' ');
    assert forall i :: 0 <= i < |r| ==> r[i] == replaced[i];
    r
  }

  /** Normalising a persona twice is normalising it once. */
  lemma PersonaIdempotent(term: string)
    ensures NormalizePersona(NormalizePersona(term)) == NormalizePersona(term)
  {
    var r := NormalizePersona(term);
    var r2 := NormalizePersona(r);
    assert ReplaceChar(r, '/', '&') == r;
    assert |r2| == |r|;
  }

  /**
   * `normalize_education`: a missing value (None or NaN) or "Tidak Dikenal"
   * becomes "Tidak Diketahui", and anything containing "SMA" becomes "SMA".
   */
  function NormalizeEducation(term: Option<string>): (r: string)
    ensures term.None? || term == Some("Tidak Dikenal") ==> r == "Tidak Diketahui"
    ensures term.Some? && Contains(term.value, "SMA") ==> r == "SMA"
    ensures term.Some? && term.value != "Tidak Dikenal" && !Contains(term.value, "SMA") ==> r == term.value
  {
    var t := if term.None? || term.value == "Tidak Dikenal" then "Tidak Diketahui" else term.value;
    NoSmaInUnknown();
    if Contains(t, "SMA") then "SMA" else t
  }

  /** Neither spelling of "unknown" contains "SMA". */
  lemma NoSmaInUnknown()
    ensures !Contains("Tidak Diketahui", "SMA") && !Contains("Tidak Dikenal", "SMA")
  {
    NotContainsFirst("Tidak Diketahui", "SMA");
    NotContainsFirst("Tidak Dikenal", "SMA");
  }

  /** Normalising an education value twice is normalising it once. */
  lemma EducationIdempotent(term: Option<string>)
    ensures NormalizeEducation(Some(NormalizeEducation(term))) == NormalizeEducation(term)
  {
    NoSmaInUnknown();
    ContainsAt("SMA", "SMA", 0);
  }

  /** The Indonesian marital statuses `normalize_marriage` produces. */
  lemma MarriageWordsLowerCase()
    ensures IsLowerCase("menikah") && IsLowerCase("lajang") && IsLowerCase("janda/duda")
  {
  }

  /**
   * `normalize_marriage`: English and Indonesian marital statuses mapped to
   * Indonesian; anything else is returned lower-cased.
   */
  function NormalizeMarriage(term: string): (r: string)
    ensures IsLowerCase(r)
    ensures r == Lower(term) || r in {"menikah", "lajang", "janda/duda"}
  {
    var t := Lower(term);
    LowerIsLowerCase(term);
    MarriageWordsLowerCase();
    if t == "married" then "menikah"
    else if t == "single" then "lajang"
    else if t == "cerai" then "janda/duda"
    else if Contains(t, "widow") then "janda/duda"
    else t
  }

  /** The mapping of `normalize_marriage`, case by case (the source checks the conditions in this order). */
  lemma MarriageCases(term: string)
    ensures var t, r := Lower(term), NormalizeMarriage(term);
            && (t == "married" ==> r == "menikah")
            && (t == "single" ==> r == "lajang")
            && (t == "cerai" || Contains(t, "widow") ==> r == "janda/duda")
            && (t != "married" && t != "single" && t != "cerai" && !Contains(t, "widow") ==> r == t)
  {
    var t := Lower(term);
    if t == "married" {
      NotContainsFirst("married", "widow");
    } else if t == "single" {
      NotContainsFirst("single", "widow");
    }
  }

  /** None of the produced statuses contains "widow". */
  lemma NoWidowInStatuses()
    ensures !Contains("menikah", "widow") && !Contains("lajang", "widow") && !Contains("janda/duda", "widow")
  {
    NotContainsFirst("menikah", "widow");
    NotContainsFirst("lajang", "widow");
    NotContainsFirst("janda/duda", "widow");
  }

  /** Normalising a marital status twice is normalising it once. */
  lemma MarriageIdempotent(term: string)
    ensures NormalizeMarriage(NormalizeMarriage(term)) == NormalizeMarriage(term)
  {
    var r := NormalizeMarriage(term);
    LowerOfLowerCase(r);
    MarriageCases(r);
    NoWidowInStatuses();
    if r != "menikah" && r != "lajang" && r != "janda/duda" {
      MarriageCases(term);
    }
  }

  /** A spreadsheet: column name to the column's cells, top to bottom. */
  type Frame = map<string, seq<string>>

  /** The column that identifies a row; `zip` walks it beside the compared column. */
  const IdColumn := "M13 ID"

  /** The normaliser `compare_columns` applies to a cell of column `header`. */
  function NormalizeCell(header: string, value: string): string {
    // The source tests the lower-cased header against each name in turn; at
    // most one of the tests can succeed.
    var h := Lower(header);
    if h == "handphone" then NormalizePhoneNumber(value)
    else if h == "persona" then NormalizePersona(value)
    else if h == "education" then NormalizeEducation(Some(value))
    else if h == "marriage" then NormalizeMarriage(value)
    else if h == "attitude" then NormalizeAttitude(value)
    else value
  }

  /**
   * Only the lower-cased header selects the normaliser, and a header naming
   * none of the five normalised columns leaves the cell as it is.
   */
  lemma NormalizeCellByHeader(header1: string, header2: string, value: string)
    ensures Lower(header1) == Lower(header2) ==> NormalizeCell(header1, value) == NormalizeCell(header2, value)
    ensures Lower(header1) != "handphone" && Lower(header1) != "persona" && Lower(header1) != "education"
            && Lower(header1) != "marriage" && Lower(header1) != "attitude" ==>
              NormalizeCell(header1, value) == value
  {
  }

  /** Two normalised cells agree when one, lower-cased, equals or contains the other. */
  predicate Agrees(v1: string, v2: string) {
    var a, b := Lower(v1), Lower(v2);
    a == b || Contains(b, a) || Contains(a, b)
  }

  /** Agreement is symmetric, reflexive, and the same as containment either way. */
  lemma AgreesProperties(v1: string, v2: string)
    ensures Agrees(v1, v2) <==> Agrees(v2, v1)
    ensures Agrees(v1, v1)
    ensures Agrees(v1, v2) <==> Contains(Lower(v2), Lower(v1)) || Contains(Lower(v1), Lower(v2))
  {
    ContainsAt(Lower(v1), Lower(v1), 0);
    ContainsAt(Lower(v2), Lower(v2), 0);
  }

  /** Row pair `i` of `xs` and `ys` agrees once both cells are normalised. */
  predicate PairAgrees(header: string, xs: seq<string>, ys: seq<string>, i: nat)
    requires i < |xs| && i < |ys|
  {
    Agrees(NormalizeCell(header, xs[i]), NormalizeCell(header, ys[i]))
  }

  /** The number of row pairs of `xs` and `ys` whose normalised cells disagree. */
  function Differences(header: string, xs: seq<string>, ys: seq<string>): (d: nat)
    requires |xs| == |ys|
    ensures d <= |xs|
  {
    if xs == [] then 0
    else
      var n := |xs| - 1;
      Differences(header, xs[..n], ys[..n])
        + (if PairAgrees(header, xs, ys, n) then 0 else 1)
  }

  /** The pairs of a prefix are the first pairs of the whole columns. */
  lemma PairAgreesPrefix(header: string, xs: seq<string>, ys: seq<string>, n: nat)
    requires n <= |xs| == |ys|
    ensures forall i :: 0 <= i < n ==>
              PairAgrees(header, xs[..n], ys[..n], i) == PairAgrees(header, xs, ys, i)
  {
    forall i | 0 <= i < n
      ensures PairAgrees(header, xs[..n], ys[..n], i) == PairAgrees(header, xs, ys, i)
    {
      assert xs[..n][i] == xs[i] && ys[..n][i] == ys[i];
    }
  }

  /** No difference is counted exactly when every pair agrees. */
  lemma {:induction false} DifferencesZeroIff(header: string, xs: seq<string>, ys: seq<string>)
    requires |xs| == |ys|
    ensures Differences(header, xs, ys) == 0 <==> forall i :: 0 <= i < |xs| ==> PairAgrees(header, xs, ys, i)
  {
    if xs != [] {
      var n := |xs| - 1;
      DifferencesZeroIff(header, xs[..n], ys[..n]);
      PairAgreesPrefix(header, xs, ys, n);
    }
  }

  /** Every pair is counted as a difference exactly when no pair agrees. */
  lemma {:induction false} DifferencesAllIff(header: string, xs: seq<string>, ys: seq<string>)
    requires |xs| == |ys|
    ensures Differences(header, xs, ys) == |xs| <==> forall i :: 0 <= i < |xs| ==> !PairAgrees(header, xs, ys, i)
  {
    if xs != [] {
      var n := |xs| - 1;
      DifferencesAllIff(header, xs[..n], ys[..n]);
      var d := Differences(header, xs[..n], ys[..n]);
      if PairAgrees(header, xs, ys, n) {
        assert Differences(header, xs, ys) == d <= n;
      } else if d == n {
        forall i | 0 <= i < |xs|
          ensures !PairAgrees(header, xs, ys, i)
        {
          if i < n {
            assert xs[..n][i] == xs[i] && ys[..n][i] == ys[i];
            assert !PairAgrees(header, xs[..n], ys[..n], i);
          }
        }
      } else {
        var i :| 0 <= i < n && PairAgrees(header, xs[..n], ys[..n], i);
        assert xs[..n][i] == xs[i] && ys[..n][i] == ys[i];
        assert PairAgrees(header, xs, ys, i);
      }
    }
  }

  /** A column compared with itself has no differences. */
  lemma {:induction false} NoDifferencesWithSelf(header: string, xs: seq<string>)
    ensures Differences(header, xs, xs) == 0
  {
    if xs != [] {
      NoDifferencesWithSelf(header, xs[..|xs| - 1]);
      AgreesProperties(NormalizeCell(header, xs[|xs| - 1]), NormalizeCell(header, xs[|xs| - 1]));
    }
  }

  /** The accuracy of one column: agreeing pairs out of compared pairs. */
  datatype Ratio = Ratio(agreements: nat, comparisons: nat)

  /** Both frames have column `header`. */
  predicate InBoth(df1: Frame, df2: Frame, header: string) {
    header in df1 && header in df2
  }

  /** The frames have the identifier column wherever `compare_columns` reads it. */
  predicate IdsPresent(df1: Frame, df2: Frame, headers: seq<string>) {
    forall h :: h in headers && InBoth(df1, df2, h) ==> IdColumn in df1 && IdColumn in df2
  }

  function Min(a: nat, b: nat): nat {
    if a <= b then a else b
  }

  /** The number of tuples `zip` yields: the length of the shortest of the four columns. */
  function ZipLength(df1: Frame, df2: Frame, header: string): nat
    requires InBoth(df1, df2, header) && IdColumn in df1 && IdColumn in df2
  {
    Min(Min(|df1[IdColumn]|, |df2[IdColumn]|), Min(|df1[header]|, |df2[header]|))
  }

  /** The accuracy `compare_columns` records for `header`, as a pair of counts. */
  function Accuracy(df1: Frame, df2: Frame, header: string): (r: Option<Ratio>)
    requires InBoth(df1, df2, header) ==> IdColumn in df1 && IdColumn in df2
    ensures r.None? <==> !InBoth(df1, df2, header) || ZipLength(df1, df2, header) == 0
    ensures r.Some? ==> 0 < r.value.comparisons && r.value.agreements <= r.value.comparisons
    ensures r.Some? ==> r.value.comparisons == ZipLength(df1, df2, header)
  {
    if !InBoth(df1, df2, header) then None
    else
      var n := ZipLength(df1, df2, header);
      if n == 0 then None
      else Some(Ratio(n - Differences(header, df1[header][..n], df2[header][..n]), n))
  }

  /** A frame scored against itself is fully accurate on every column it has. */
  lemma SelfComparisonIsExact(df: Frame, header: string)
    requires header in df && IdColumn in df
    requires Min(|df[IdColumn]|, |df[header]|) > 0
    ensures Accuracy(df, df, header) == Some(Ratio(Min(|df[IdColumn]|, |df[header]|), Min(|df[IdColumn]|, |df[header]|)))
  {
    var n := ZipLength(df, df, header);
    assert n == Min(|df[IdColumn]|, |df[header]|);
    var xs := df[header][..n];
    NoDifferencesWithSelf(header, xs);
    assert Accuracy(df, df, header) == Some(Ratio(n - Differences(header, xs, xs), n));
  }

  /**
   * The inner loop of `compare_columns` for one header present in both
   * frames: the pairs compared and the pairs that disagree.
   */
  method ScoreColumn(header: string, ids1: seq<string>, ids2: seq<string>, col1: seq<string>, col2: seq<string>)
    returns (totalComparisons: nat, differences: nat)
    ensures totalComparisons == Min(Min(|ids1|, |ids2|), Min(|col1|, |col2|))
    ensures differences == Differences(header, col1[..totalComparisons], col2[..totalComparisons])
  {
    differences := 0;
    totalComparisons := 0;
    // `zip` stops at the end of the shortest of the four columns.
    while totalComparisons < |ids1| && totalComparisons < |ids2|
          && totalComparisons < |col1| && totalComparisons < |col2|
      invariant totalComparisons <= Min(Min(|ids1|, |ids2|), Min(|col1|, |col2|))
      invariant differences == Differences(header, col1[..totalComparisons], col2[..totalComparisons])
      decreases |col1| - totalComparisons
    {
      var value1 := NormalizeCell(header, col1[totalComparisons]);
      var value2 := NormalizeCell(header, col2[totalComparisons]);
      assert col1[..totalComparisons + 1][..totalComparisons] == col1[..totalComparisons];
      assert col2[..totalComparisons + 1][..totalComparisons] == col2[..totalComparisons];
      totalComparisons := totalComparisons + 1;
      if !Agrees(value1, value2) {
        differences := differences + 1;
      }
    }
  }

  /**
   * `compare_columns`: for every selected header, the share of row pairs whose
   * normalised values agree, or None when the column is missing from a frame
   * or no rows were compared.
   */
  method CompareColumns(df1: Frame, df2: Frame, headers: seq<string>)
    returns (accuracy: map<string, Option<Ratio>>)
    requires IdsPresent(df1, df2, headers)
    ensures forall h :: h in accuracy <==> h in headers
    ensures forall h :: h in headers ==> accuracy[h] == Accuracy(df1, df2, h)
  {
    accuracy := map[];
    for i := 0 to |headers|
      invariant IdsPresent(df1, df2, headers[..i])
      invariant Scored(df1, df2, accuracy, headers[..i])
    {
      var header := headers[i];
      assert header in headers;
      var differences := 0;
      var totalComparisons := 0;
      if header in df1 && header in df2 {
        totalComparisons, differences :=
          ScoreColumn(header, df1[IdColumn], df2[IdColumn], df1[header], df2[header]);
      }
      ScoreIsAccuracy(df1, df2, header, totalComparisons, differences);
      var columnAccuracy :=
        if totalComparisons > 0 then Some(Ratio(totalComparisons - differences, totalComparisons)) else None;
      assert headers[..i + 1] == headers[..i] + [header];
      ScoredStep(df1, df2, accuracy, headers[..i], header, columnAccuracy);
      accuracy := accuracy[header := columnAccuracy];
    }
    assert headers[..|headers|] == headers;
  }

  /** `acc` holds the accuracy of exactly the headers `hs`. */
  ghost predicate Scored(df1: Frame, df2: Frame, acc: map<string, Option<Ratio>>, hs: seq<string>)
    requires IdsPresent(df1, df2, hs)
  {
    (forall h :: h in acc <==> h in hs)
    && forall h :: h in hs ==> acc[h] == Accuracy(df1, df2, h)
  }

  /** Recording the accuracy of one more header. */
  lemma ScoredStep(df1: Frame, df2: Frame, acc: map<string, Option<Ratio>>, hs: seq<string>, h: string,
                   v: Option<Ratio>)
    requires IdsPresent(df1, df2, hs + [h]) && IdsPresent(df1, df2, hs)
    requires Scored(df1, df2, acc, hs) && v == Accuracy(df1, df2, h)
    ensures Scored(df1, df2, acc[h := v], hs + [h])
  {
    var acc' := acc[h := v];
    forall g | g in hs + [h]
      ensures acc'[g] == Accuracy(df1, df2, g)
    {
      if g != h {
        assert g in hs;
      }
    }
  }

  /** The counts the loop of `compare_columns` produces for one header give its `Accuracy`. */
  lemma ScoreIsAccuracy(df1: Frame, df2: Frame, header: string, totalComparisons: nat, differences: nat)
    requires InBoth(df1, df2, header) ==> IdColumn in df1 && IdColumn in df2
    requires !InBoth(df1, df2, header) ==> totalComparisons == 0
    requires InBoth(df1, df2, header) ==> totalComparisons == ZipLength(df1, df2, header)
    requires InBoth(df1, df2, header) ==>
               differences == Differences(header, df1[header][..totalComparisons], df2[header][..totalComparisons])
    ensures totalComparisons > 0 ==> differences <= totalComparisons
    ensures Accuracy(df1, df2, header) ==
      if totalComparisons > 0 then Some(Ratio(totalComparisons - differences, totalComparisons)) else None
  {
    if InBoth(df1, df2, header) {
      var n := ZipLength(df1, df2, header);
      var xs, ys := df1[header][..n], df2[header][..n];
      assert differences == Differences(header, xs, ys) <= n;
    }
  }

  /**
   * `validate_excel` of model_stats.py: the workbook name with ".xlsx" added
   * when missing, inside the "output/" folder.
   */
  function OutputPath(filename: string): (r: string)
    ensures "output/" <= r && Contains(r[|"output/"|..], ".xlsx")
    ensures Contains(filename, ".xlsx") ==> r == "output/" + filename
    ensures !Contains(filename, ".xlsx") ==> r == "output/" + filename + ".xlsx"
  {
    if Contains(filename, ".xlsx") then
      assert ("output/" + filename)[|"output/"|..] == filename;
      "output/" + filename
    else
      ContainsAt(filename + ".xlsx", ".xlsx", |filename|);
      assert ("output/" + filename + ".xlsx")[|"output/"|..] == filename + ".xlsx";
      "output/" + filename + ".xlsx"
  }
}
