/**
 * Artifact names: the simulation-input (IDF) and weather (EPW) filename patterns of
 * mm_final_energy_sim.py, the dotted-to-undotted scenario normalisation, and the weather
 * index keyed by (undotted scenario, year).
 *
 * Both patterns are compiled with IGNORECASE and end in `$`, which in Python also matches
 * just before one final newline; both are modelled.
 */
module Names {
  import opened Wrappers
  import opened Text

  /** The groups of IDF_NAME_RE, as `parse_idf_filename` returns them. */
  datatype IdfName = IdfName(scenario: string, aging: string, year: int)

  /** The groups of EPW_NAME_RE, as `index_epws_s3` keys them. */
  datatype EpwName = EpwName(scenario: string, year: int)

  /** What `$` leaves to the rest of the pattern: a single final newline is ignored. */
  function DropFinalNewline(s: string): string {
    if |s| > 0 && s[|s| - 1] == '\n' then s[..|s| - 1] else s
  }

  predicate IsLetter(c: char) {
    ('a' <= c <= 'z') || ('A' <= c <= 'Z')
  }

  /** `RCP(?:8\.5|4\.5|2\.6)` under IGNORECASE. */
  predicate DottedScenarioToken(s: string) {
    var l := LowerStr(s);
    l == "rcp8.5" || l == "rcp4.5" || l == "rcp2.6"
  }

  /** `RCP(?:85|45|26)` under IGNORECASE. */
  predicate UndottedScenarioToken(s: string) {
    var l := LowerStr(s);
    l == "rcp85" || l == "rcp45" || l == "rcp26"
  }

  /**
   * `[EFT](?:[12]?\d|2[0-8])` under IGNORECASE: a letter and one digit, or a letter, a
   * `1` or `2`, and a digit. The second alternative adds nothing, so E29 is accepted.
   */
  predicate AgingToken(s: string) {
    && (|s| == 2 || |s| == 3)
    && (Lower(s[0]) == 'e' || Lower(s[0]) == 'f' || Lower(s[0]) == 't')
    && (if |s| == 2 then IsDigit(s[1]) else (s[1] == '1' || s[1] == '2') && IsDigit(s[2]))
  }

  /** `20[2-7]\d|208[0-4]`. */
  predicate YearToken(s: string) {
    && |s| == 4 && s[0] == '2' && s[1] == '0'
    && (('2' <= s[2] <= '7' && IsDigit(s[3])) || (s[2] == '8' && '0' <= s[3] <= '4'))
  }

  /** `int(year_str)` on a year token. */
  function YearValue(s: string): (y: int)
    requires YearToken(s)
    ensures 2020 <= y <= 2084
  {
    2000 + 10 * (s[2] as int - '0' as int) + (s[3] as int - '0' as int)
  }

  /** The four decimal digits of a year in the accepted range. */
  function YearDigits(y: int): string
    requires 2020 <= y <= 2084
  {
    "20" + [DigitChar((y - 2000) / 10), DigitChar(y % 10)]
  }

  lemma YearDigitsRoundTrip(y: int)
    requires 2020 <= y <= 2084
    ensures YearToken(YearDigits(y)) && YearValue(YearDigits(y)) == y
  {
  }

  lemma YearValueRoundTrip(s: string)
    requires YearToken(s)
    ensures YearDigits(YearValue(s)) == s
  {
  }

  /** `parse_idf_filename`: the upper-cased scenario and aging code and the integer year. */
  function ParseIdfName(name: string): Result<IdfName> {
    var b := DropFinalNewline(name);
    var n := |b|;
    if && (n == 18 || n == 19)
       && DottedScenarioToken(b[..6]) && b[6] == '_'
       && AgingToken(b[7..n - 9]) && b[n - 9] == '_'
       && YearToken(b[n - 8..n - 4]) && LowerStr(b[n - 4..]) == ".idf"
    then Ok(IdfName(UpperStr(b[..6]), UpperStr(b[7..n - 9]), YearValue(b[n - 8..n - 4])))
    else Err("Unrecognized IDF filename: " + name)
  }

  /** The fields `parse_idf_filename` can return. */
  predicate ValidIdfName(v: IdfName) {
    && (v.scenario == "RCP8.5" || v.scenario == "RCP4.5" || v.scenario == "RCP2.6")
    && AgingToken(v.aging) && UpperStr(v.aging) == v.aging
    && 2020 <= v.year <= 2084
  }

  /** The canonical IDF filename of a parse result. */
  function IdfFileName(v: IdfName): string
    requires 2020 <= v.year <= 2084
  {
    v.scenario + "_" + v.aging + "_" + YearDigits(v.year) + ".idf"
  }

  /** `EPW_NAME_RE.match(name)`, with the upper-cased scenario and the integer year. */
  function ParseEpwName(name: string): Option<EpwName> {
    var b := DropFinalNewline(name);
    if && |b| == 24
       && LowerStr(b[..10]) == "rotterdam_" && UndottedScenarioToken(b[10..15]) && b[15] == '_'
       && YearToken(b[16..20]) && LowerStr(b[20..]) == ".epw"
    then Some(EpwName(UpperStr(b[10..15]), YearValue(b[16..20])))
    else None
  }

  predicate ValidEpwName(e: EpwName) {
    && (e.scenario == "RCP85" || e.scenario == "RCP45" || e.scenario == "RCP26")
    && 2020 <= e.year <= 2084
  }

  function EpwFileName(e: EpwName): string
    requires 2020 <= e.year <= 2084
  {
    "Rotterdam_" + e.scenario + "_" + YearDigits(e.year) + ".epw"
  }

  // ---------------------------------------------------------------------------------------
  // Case-insensitive matching, piece by piece

  lemma LowerStrSlice(a: string, i: int, j: int)
    requires 0 <= i <= j <= |a|
    ensures LowerStr(a[i..j]) == LowerStr(a)[i..j]
  {
  }

  lemma SameIgnoringCaseSlice(a: string, b: string, i: int, j: int)
    requires SameIgnoringCase(a, b) && 0 <= i <= j <= |a|
    ensures |a| == |b| && SameIgnoringCase(a[i..j], b[i..j])
  {
    assert |a| == |LowerStr(a)|;
    LowerStrSlice(a, i, j);
    LowerStrSlice(b, i, j);
  }

  /** Characters that are not letters match only themselves. */
  lemma {:induction false} SameIgnoringCaseNoLetters(x: string, t: string)
    requires SameIgnoringCase(x, t)
    requires forall i :: 0 <= i < |t| ==> !IsLetter(t[i])
    ensures x == t
  {
    assert |x| == |LowerStr(x)| == |LowerStr(t)| == |t|;
    forall i | 0 <= i < |x| ensures x[i] == t[i] {
      assert LowerStr(x)[i] == LowerStr(t)[i];
    }
  }

  lemma ScenarioLiterals()
    ensures LowerStr("RCP8.5") == "rcp8.5" && UpperStr("RCP8.5") == "RCP8.5"
    ensures LowerStr("RCP4.5") == "rcp4.5" && UpperStr("RCP4.5") == "RCP4.5"
    ensures LowerStr("RCP2.6") == "rcp2.6" && UpperStr("RCP2.6") == "RCP2.6"
    ensures LowerStr("RCP85") == "rcp85" && UpperStr("RCP85") == "RCP85"
    ensures LowerStr("RCP45") == "rcp45" && UpperStr("RCP45") == "RCP45"
    ensures LowerStr("RCP26") == "rcp26" && UpperStr("RCP26") == "RCP26"
    ensures LowerStr(".idf") == ".idf" && LowerStr(".epw") == ".epw"
    ensures LowerStr("Rotterdam_") == "rotterdam_"
  {
  }

  // ---------------------------------------------------------------------------------------
  // IDF names: the pattern accepts exactly the case variants of the canonical names

  lemma ScenarioTokenUpper(s: string)
    requires DottedScenarioToken(s)
    ensures UpperStr(s) == "RCP8.5" || UpperStr(s) == "RCP4.5" || UpperStr(s) == "RCP2.6"
    ensures SameIgnoringCase(s, UpperStr(s))
  {
    ScenarioLiterals();
    if LowerStr(s) == "rcp8.5" {
      UpperStrOfSameLower(s, "RCP8.5");
    } else if LowerStr(s) == "rcp4.5" {
      UpperStrOfSameLower(s, "RCP4.5");
    } else {
      UpperStrOfSameLower(s, "RCP2.6");
    }
  }

  lemma AgingTokenUpper(s: string)
    requires AgingToken(s)
    ensures AgingToken(UpperStr(s)) && UpperStr(UpperStr(s)) == UpperStr(s)
    ensures SameIgnoringCase(s, UpperStr(s))
  {
  }

  /** Every name `parse_idf_filename` accepts is a case variant of the canonical name of its
      result, possibly followed by one newline; the result has the documented shape. */
  lemma ParseIdfSound(name: string)
    requires ParseIdfName(name).Ok?
    ensures ValidIdfName(ParseIdfName(name).value)
    ensures SameIgnoringCase(DropFinalNewline(name), IdfFileName(ParseIdfName(name).value))
  {
    var b := DropFinalNewline(name);
    var n := |b|;
    var v := ParseIdfName(name).value;
    ScenarioTokenUpper(b[..6]);
    AgingTokenUpper(b[7..n - 9]);
    YearValueRoundTrip(b[n - 8..n - 4]);
    ScenarioLiterals();
    assert b == b[..6] + [b[6]] + b[7..n - 9] + [b[n - 9]] + b[n - 8..n - 4] + b[n - 4..];
    LowerStrConcat(b[..6] + [b[6]] + b[7..n - 9] + [b[n - 9]] + b[n - 8..n - 4], b[n - 4..]);
    LowerStrConcat(b[..6] + [b[6]] + b[7..n - 9] + [b[n - 9]], b[n - 8..n - 4]);
    LowerStrConcat(b[..6] + [b[6]] + b[7..n - 9], [b[n - 9]]);
    LowerStrConcat(b[..6] + [b[6]], b[7..n - 9]);
    LowerStrConcat(b[..6], [b[6]]);
    var c := IdfFileName(v);
    LowerStrConcat(v.scenario + "_" + v.aging + "_" + YearDigits(v.year), ".idf");
    LowerStrConcat(v.scenario + "_" + v.aging + "_", YearDigits(v.year));
    LowerStrConcat(v.scenario + "_" + v.aging, "_");
    LowerStrConcat(v.scenario + "_", v.aging);
    LowerStrConcat(v.scenario, "_");
  }

  /** The pieces of a case variant of a canonical IDF name. */
  lemma IdfVariantPieces(v: IdfName, body: string)
    requires ValidIdfName(v) && SameIgnoringCase(body, IdfFileName(v))
    ensures |body| == 16 + |v.aging|
    ensures SameIgnoringCase(body[..6], v.scenario) && body[6] == '_'
    ensures SameIgnoringCase(body[7..|body| - 9], v.aging) && body[|body| - 9] == '_'
    ensures body[|body| - 8..|body| - 4] == YearDigits(v.year)
    ensures SameIgnoringCase(body[|body| - 4..], ".idf")
  {
    var c := IdfFileName(v);
    var n := |c|;
    assert |body| == |LowerStr(body)| == |LowerStr(c)| == n;
    var pre := v.scenario + "_" + v.aging + "_" + YearDigits(v.year);
    assert c == pre + ".idf" && |pre| == n - 4;
    assert c[n - 4..n] == ".idf";
    assert c[..6] == v.scenario && c[6..7] == "_" && c[7..n - 9] == v.aging;
    assert c[n - 9..n - 8] == "_" && c[n - 8..n - 4] == YearDigits(v.year);
    SameIgnoringCaseSlice(body, c, 0, 6);
    SameIgnoringCaseSlice(body, c, 6, 7);
    SameIgnoringCaseNoLetters(body[6..7], "_");
    assert body[6] == body[6..7][0];
    SameIgnoringCaseSlice(body, c, 7, n - 9);
    SameIgnoringCaseSlice(body, c, n - 9, n - 8);
    SameIgnoringCaseNoLetters(body[n - 9..n - 8], "_");
    assert body[n - 9] == body[n - 9..n - 8][0];
    SameIgnoringCaseSlice(body, c, n - 8, n - 4);
    SameIgnoringCaseNoLetters(body[n - 8..n - 4], YearDigits(v.year));
    SameIgnoringCaseSlice(body, c, n - 4, n);
    assert body[n - 4..] == body[n - 4..n];
  }

  /** An aging code read case-insensitively. */
  lemma AgingVariant(x: string, t: string)
    requires AgingToken(t) && UpperStr(t) == t && SameIgnoringCase(x, t)
    ensures AgingToken(x) && UpperStr(x) == t
  {
    UpperStrOfSameLower(x, t);
    assert |x| == |LowerStr(x)| == |LowerStr(t)| == |t|;
    assert LowerStr(x)[0] == LowerStr(t)[0];
    SameIgnoringCaseSlice(x, t, 1, |t|);
    SameIgnoringCaseNoLetters(x[1..], t[1..]);
    assert x[1] == x[1..][0] && t[1] == t[1..][0];
    assert |t| == 3 ==> x[2] == x[1..][1] && t[2] == t[1..][1];
  }

  /** Every case variant of a canonical IDF name, with or without one final newline, parses
      back to exactly its fields. */
  lemma ParseIdfComplete(v: IdfName, body: string)
    requires ValidIdfName(v) && SameIgnoringCase(body, IdfFileName(v))
    ensures ParseIdfName(body) == Ok(v) && ParseIdfName(body + "\n") == Ok(v)
  {
    IdfVariantPieces(v, body);
    var n := |body|;
    ScenarioLiterals();
    YearDigitsRoundTrip(v.year);
    UpperStrOfSameLower(body[..6], v.scenario);
    AgingVariant(body[7..n - 9], v.aging);
    assert LowerStr(body[n - 4..])[3] == 'f';
    assert DropFinalNewline(body) == body;
    assert (body + "\n")[..n] == body;
    assert DropFinalNewline(body + "\n") == body;
  }

  // ---------------------------------------------------------------------------------------
  // EPW names

  lemma UndottedTokenUpper(s: string)
    requires UndottedScenarioToken(s)
    ensures UpperStr(s) == "RCP85" || UpperStr(s) == "RCP45" || UpperStr(s) == "RCP26"
    ensures SameIgnoringCase(s, UpperStr(s))
  {
    ScenarioLiterals();
    if LowerStr(s) == "rcp85" {
      UpperStrOfSameLower(s, "RCP85");
    } else if LowerStr(s) == "rcp45" {
      UpperStrOfSameLower(s, "RCP45");
    } else {
      UpperStrOfSameLower(s, "RCP26");
    }
  }

  /** Every weather name the pattern accepts is a case variant of the canonical name of its
      result, possibly followed by one newline. */
  lemma ParseEpwSound(name: string)
    requires ParseEpwName(name).Some?
    ensures ValidEpwName(ParseEpwName(name).value)
    ensures SameIgnoringCase(DropFinalNewline(name), EpwFileName(ParseEpwName(name).value))
  {
    var b := DropFinalNewline(name);
    var e := ParseEpwName(name).value;
    UndottedTokenUpper(b[10..15]);
    YearValueRoundTrip(b[16..20]);
    ScenarioLiterals();
    assert b == b[..10] + b[10..15] + [b[15]] + b[16..20] + b[20..];
    LowerStrConcat(b[..10] + b[10..15] + [b[15]] + b[16..20], b[20..]);
    LowerStrConcat(b[..10] + b[10..15] + [b[15]], b[16..20]);
    LowerStrConcat(b[..10] + b[10..15], [b[15]]);
    LowerStrConcat(b[..10], b[10..15]);
    LowerStrConcat("Rotterdam_" + e.scenario + "_" + YearDigits(e.year), ".epw");
    LowerStrConcat("Rotterdam_" + e.scenario + "_", YearDigits(e.year));
    LowerStrConcat("Rotterdam_" + e.scenario, "_");
    LowerStrConcat("Rotterdam_", e.scenario);
  }

  lemma EpwVariantPieces(e: EpwName, body: string)
    requires ValidEpwName(e) && SameIgnoringCase(body, EpwFileName(e))
    ensures |body| == 24
    ensures SameIgnoringCase(body[..10], "Rotterdam_") && SameIgnoringCase(body[10..15], e.scenario)
    ensures body[15] == '_' && body[16..20] == YearDigits(e.year)
    ensures SameIgnoringCase(body[20..], ".epw")
  {
    var c := EpwFileName(e);
    assert |body| == |LowerStr(body)| == |LowerStr(c)| == |c| == 24;
    assert c[..10] == "Rotterdam_" && c[10..15] == e.scenario && c[15..16] == "_";
    assert c[16..20] == YearDigits(e.year) && c[20..24] == ".epw";
    SameIgnoringCaseSlice(body, c, 0, 10);
    SameIgnoringCaseSlice(body, c, 10, 15);
    SameIgnoringCaseSlice(body, c, 15, 16);
    SameIgnoringCaseNoLetters(body[15..16], "_");
    assert body[15] == body[15..16][0];
    SameIgnoringCaseSlice(body, c, 16, 20);
    SameIgnoringCaseNoLetters(body[16..20], YearDigits(e.year));
    SameIgnoringCaseSlice(body, c, 20, 24);
    assert body[20..] == body[20..24];
  }

  /** Every case variant of a canonical weather name, with or without one final newline, is
      accepted with exactly its fields. */
  lemma ParseEpwComplete(e: EpwName, body: string)
    requires ValidEpwName(e) && SameIgnoringCase(body, EpwFileName(e))
    ensures ParseEpwName(body) == Some(e) && ParseEpwName(body + "\n") == Some(e)
  {
    EpwVariantPieces(e, body);
    ScenarioLiterals();
    YearDigitsRoundTrip(e.year);
    UpperStrOfSameLower(body[10..15], e.scenario);
    assert LowerStr(body[20..])[3] == 'w';
    assert DropFinalNewline(body) == body;
    assert (body + "\n")[..24] == body;
    assert DropFinalNewline(body + "\n") == body;
  }

  // ---------------------------------------------------------------------------------------
  // Scenario normalisation

  /** `map_rcp_dot_to_nodot`. */
  function NormaliseScenario(rcp: string): string {
    ReplaceDots(RemoveSpaces(UpperStr(rcp)))
  }

  /** The undotted form of each dotted scenario. */
  function Undotted(scenario: string): string {
    if scenario == "RCP8.5" then "RCP85"
    else if scenario == "RCP4.5" then "RCP45"
    else if scenario == "RCP2.6" then "RCP26"
    else scenario
  }

  /** Replacing `pat` (which starts with `c`) leaves a prefix without `c` alone. */
  lemma {:induction false} ReplaceSkipsPrefix(pre: string, rest: string, pat: string, rep: string)
    requires pat != [] && pat[0] !in pre
    ensures ReplaceAll(pre + rest, pat, rep) == pre + ReplaceAll(rest, pat, rep)
    decreases |pre|
  {
    if pre != [] {
      assert (pre + rest)[1..] == pre[1..] + rest;
      assert !(pat <= pre + rest) by {
        assert (pre + rest)[0] == pre[0] != pat[0];
      }
      ReplaceSkipsPrefix(pre[1..], rest, pat, rep);
      assert pre == [pre[0]] + pre[1..];
    } else {
      assert pre + rest == rest;
    }
  }

  lemma ReplaceWhole(pat: string, rep: string)
    requires pat != []
    ensures ReplaceAll(pat, pat, rep) == rep
  {
    assert pat[|pat|..] == [];
  }

  lemma ReplaceDotted(digits: string, dotted: string)
    requires dotted == "8.5" || dotted == "4.5" || dotted == "2.6"
    requires digits == [dotted[0], dotted[2]]
    ensures ReplaceAll("RCP" + dotted, dotted, digits) == "RCP" + digits
  {
    ReplaceSkipsPrefix("RCP", dotted, dotted, digits);
    ReplaceWhole(dotted, digits);
  }

  /** The undotted result contains none of the three dotted patterns. */
  lemma UndottedUntouched(u: string)
    requires u == "RCP85" || u == "RCP45" || u == "RCP26"
    ensures ReplaceAll(u, "8.5", "85") == u && ReplaceAll(u, "4.5", "45") == u
    ensures ReplaceAll(u, "2.6", "26") == u
  {
    ContainsNeedsChar(u, "8.5", '.');
    ContainsNeedsChar(u, "4.5", '.');
    ContainsNeedsChar(u, "2.6", '.');
    ReplaceAbsent(u, "8.5", "85");
    ReplaceAbsent(u, "4.5", "45");
    ReplaceAbsent(u, "2.6", "26");
  }

  /** The three replacements of `map_rcp_dot_to_nodot`, in their order. */
  function ReplaceDots(r: string): string {
    ReplaceAll(ReplaceAll(ReplaceAll(r, "8.5", "85"), "4.5", "45"), "2.6", "26")
  }

  lemma ReplaceDots85(s: string)
    requires s == "RCP" + "8.5"
    ensures ReplaceDots(s) == "RCP85"
  {
    ReplaceDotted("85", "8.5");
    assert ReplaceAll(s, "8.5", "85") == "RCP85";
    UndottedUntouched("RCP85");
  }

  lemma ReplaceDots45(s: string)
    requires s == "RCP" + "4.5"
    ensures ReplaceDots(s) == "RCP45"
  {
    ContainsNeedsChar(s, "8.5", '8');
    ReplaceAbsent(s, "8.5", "85");
    ReplaceDotted("45", "4.5");
    assert ReplaceAll(s, "4.5", "45") == "RCP45";
    UndottedUntouched("RCP45");
  }

  lemma ReplaceDots26(s: string)
    requires s == "RCP" + "2.6"
    ensures ReplaceDots(s) == "RCP26"
  {
    ContainsNeedsChar(s, "8.5", '8');
    ReplaceAbsent(s, "8.5", "85");
    ContainsNeedsChar(s, "4.5", '4');
    ReplaceAbsent(s, "4.5", "45");
    ReplaceDotted("26", "2.6");
  }

  /** A dotted scenario in any case and with any spaces normalises to its undotted form. */
  lemma NormaliseDotted(rcp: string)
    requires var r := RemoveSpaces(UpperStr(rcp)); r == "RCP8.5" || r == "RCP4.5" || r == "RCP2.6"
    ensures NormaliseScenario(rcp) == Undotted(RemoveSpaces(UpperStr(rcp)))
  {
    var r := RemoveSpaces(UpperStr(rcp));
    assert NormaliseScenario(rcp) == ReplaceDots(r);
    if r == "RCP8.5" {
      ReplaceDots85(r);
    } else if r == "RCP4.5" {
      ReplaceDots45(r);
    } else {
      ReplaceDots26(r);
    }
  }

  /** A scenario with no dot and no space, in particular an undotted one, is only upper-cased. */
  lemma NormaliseUndotted(rcp: string)
    requires '.' !in rcp && ' ' !in rcp
    ensures NormaliseScenario(rcp) == UpperStr(rcp)
  {
    var u := UpperStr(rcp);
    assert '.' !in u && ' ' !in u;
    RemoveSpacesAbsent(u);
    ContainsNeedsChar(u, "8.5", '.');
    ReplaceAbsent(u, "8.5", "85");
    ContainsNeedsChar(u, "4.5", '.');
    ReplaceAbsent(u, "4.5", "45");
    ContainsNeedsChar(u, "2.6", '.');
    ReplaceAbsent(u, "2.6", "26");
  }

  /** The scenario of a parsed IDF name normalises to the scenario form weather names use,
      so both join on the same (scenario, year) key. */
  lemma ParsedScenarioMatchesWeather(v: IdfName)
    requires ValidIdfName(v)
    ensures NormaliseScenario(v.scenario) == Undotted(v.scenario)
    ensures ValidEpwName(EpwName(NormaliseScenario(v.scenario), v.year))
  {
    ScenarioLiterals();
    RemoveSpacesAbsent(v.scenario);
    NormaliseDotted(v.scenario);
  }

  // ---------------------------------------------------------------------------------------
  // The weather index

  /** The (scenario, year) key a listed weather object contributes, if its name matches. */
  function EpwKeyPair(key: string): Option<(string, int)> {
    match ParseEpwName(LastSegment(key))
    case Some(e) => Some((e.scenario, e.year))
    case None => None
  }

  /** The index built from a listing one key at a time, a later key overwriting an earlier
      one with the same pair. */
  function IndexBy(keys: seq<string>, pairOf: string -> Option<(string, int)>): map<(string, int), string> {
    if keys == [] then map[]
    else
      var idx := IndexBy(keys[..|keys| - 1], pairOf);
      var k := keys[|keys| - 1];
      match pairOf(k)
      case Some(p) => idx[p := k]
      case None => idx
  }

  /** The index `index_epws_s3` builds from a listing. */
  function EpwIndex(keys: seq<string>): map<(string, int), string> {
    IndexBy(keys, EpwKeyPair)
  }

  /** One more key extends the index by its pair, if it has one. */
  lemma IndexByNext(keys: seq<string>, i: nat, pairOf: string -> Option<(string, int)>)
    requires i < |keys|
    ensures IndexBy(keys[..i + 1], pairOf)
         == match pairOf(keys[i])
            case Some(p) => IndexBy(keys[..i], pairOf)[p := keys[i]]
            case None => IndexBy(keys[..i], pairOf)
  {
    assert keys[..i + 1][..i] == keys[..i];
  }

  /** `index_epws_s3` over a given listing. */
  method IndexEpws(keys: seq<string>) returns (idx: map<(string, int), string>)
    ensures idx == EpwIndex(keys)
  {
    idx := map[];
    var i := 0;
    while i < |keys|
      invariant 0 <= i <= |keys|
      invariant idx == EpwIndex(keys[..i])
    {
      var key := keys[i];
      var name := LastSegment(key);
      var m := ParseEpwName(name);
      IndexByNext(keys, i, EpwKeyPair);
      assert EpwKeyPair(key) == if m.Some? then Some((m.value.scenario, m.value.year)) else None;
      if m.Some? {
        idx := idx[(m.value.scenario, m.value.year) := key];
      }
      i := i + 1;
    }
    assert keys[..i] == keys;
  }

  /** Some listed key contributes the pair. */
  ghost predicate Listed(keys: seq<string>, pairOf: string -> Option<(string, int)>, p: (string, int)) {
    exists i :: 0 <= i < |keys| && pairOf(keys[i]) == Some(p)
  }

  lemma ListedSnoc(keys: seq<string>, pairOf: string -> Option<(string, int)>, p: (string, int))
    requires keys != []
    ensures Listed(keys, pairOf, p) <==>
      Listed(keys[..|keys| - 1], pairOf, p) || pairOf(keys[|keys| - 1]) == Some(p)
  {
    var init := keys[..|keys| - 1];
    if Listed(init, pairOf, p) {
      var i :| 0 <= i < |init| && pairOf(init[i]) == Some(p);
      assert keys[i] == init[i];
    }
    if Listed(keys, pairOf, p) && pairOf(keys[|keys| - 1]) != Some(p) {
      var i :| 0 <= i < |keys| && pairOf(keys[i]) == Some(p);
      assert init[i] == keys[i];
    }
  }

  /** A pair is indexed exactly when some listed key contributes it. */
  lemma {:induction false} IndexByDomain(keys: seq<string>, pairOf: string -> Option<(string, int)>, p: (string, int))
    ensures p in IndexBy(keys, pairOf) <==> Listed(keys, pairOf, p)
  {
    if keys != [] {
      IndexByDomain(keys[..|keys| - 1], pairOf, p);
      ListedSnoc(keys, pairOf, p);
    }
  }

  /** The key indexed for a pair is the last listed key contributing that pair. */
  lemma {:induction false} IndexByLastWins(keys: seq<string>, pairOf: string -> Option<(string, int)>, p: (string, int))
    returns (i: nat)
    requires p in IndexBy(keys, pairOf)
    ensures i < |keys| && keys[i] == IndexBy(keys, pairOf)[p] && pairOf(keys[i]) == Some(p)
    ensures forall j :: i < j < |keys| ==> pairOf(keys[j]) != Some(p)
  {
    var init := keys[..|keys| - 1];
    if pairOf(keys[|keys| - 1]) == Some(p) {
      i := |keys| - 1;
    } else {
      i := IndexByLastWins(init, pairOf, p);
      assert keys[i] == init[i];
      forall j | i < j < |keys| ensures pairOf(keys[j]) != Some(p) {
        if j < |keys| - 1 {
          assert keys[j] == init[j];
        }
      }
    }
  }

  /** A (scenario, year) pair is in the weather index exactly when some listed key's last
      segment is a weather name for it. */
  lemma EpwIndexDomain(keys: seq<string>, p: (string, int))
    ensures p in EpwIndex(keys) <==> exists i :: 0 <= i < |keys| && EpwKeyPair(keys[i]) == Some(p)
  {
    IndexByDomain(keys, EpwKeyPair, p);
  }

  /** For duplicate pairs the later-listed key wins, and the indexed key names a weather file
      for its own pair. */
  lemma EpwIndexLastWins(keys: seq<string>, p: (string, int)) returns (i: nat)
    requires p in EpwIndex(keys)
    ensures i < |keys| && keys[i] == EpwIndex(keys)[p]
    ensures ParseEpwName(LastSegment(keys[i])) == Some(EpwName(p.0, p.1)) && ValidEpwName(EpwName(p.0, p.1))
    ensures forall j :: i < j < |keys| ==> EpwKeyPair(keys[j]) != Some(p)
  {
    i := IndexByLastWins(keys, EpwKeyPair, p);
    ParseEpwSound(LastSegment(keys[i]));
  }
}
