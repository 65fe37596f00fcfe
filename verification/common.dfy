/** The body rule engine: whether a decoded response body satisfies a set
    of match rules (`IsMatch`) or of filter rules (`IsFilter`). */
module Common {
  import opened Results
  import opened Text
  import opened DataType

  // ---------------------------------------------------------------------
  // Combining sub-rules

  /** The two accumulators both predicates keep while visiting their
      sub-rules: whether every configured sub-rule held so far, and how many
      configured sub-rules held. */
  datatype Tally = Tally(all: bool, hits: nat)

  const Start := Tally(true, 0)

  /** Visit one sub-rule: `None` when it is not configured, otherwise
      `Some` of its outcome. */
  function Visit(t: Tally, outcome: Option<bool>): Tally
  {
    match outcome
    case None => t
    case Some(n) => Tally(n && t.all, if n then t.hits + 1 else t.hits)
  }

  /** The final decision: in OR mode one satisfied sub-rule suffices,
      otherwise every configured sub-rule must have held. */
  function Verdict(t: Tally, andAndAnd: bool): bool
  {
    if !andAndAnd && t.hits > 0 then true else t.all
  }

  /** Three sub-rules visited in order and combined. */
  function Combine(a: Option<bool>, b: Option<bool>, c: Option<bool>, andAndAnd: bool): (r: bool)
  {
    Verdict(Visit(Visit(Visit(Start, a), b), c), andAndAnd)
  }

  /** A sub-rule that is configured and failed. */
  predicate Fails(o: Option<bool>) { o == Some(false) }

  /** A sub-rule that is configured and held. */
  predicate Holds(o: Option<bool>) { o == Some(true) }

  /** AND mode: every configured sub-rule holds (vacuously true when none is
      configured). OR mode: some configured sub-rule holds, or none is
      configured at all. */
  lemma CombineMeaning(a: Option<bool>, b: Option<bool>, c: Option<bool>, andAndAnd: bool)
    ensures andAndAnd ==> (Combine(a, b, c, andAndAnd) <==> !Fails(a) && !Fails(b) && !Fails(c))
    ensures !andAndAnd ==> (Combine(a, b, c, andAndAnd) <==>
      Holds(a) || Holds(b) || Holds(c) || (a.None? && b.None? && c.None?))
  {
  }

  // ---------------------------------------------------------------------
  // Match

  function MatchRegexOutcome(html: string, m: Matches): Option<bool>
  {
    if m.regex.Some? then Some(RegexMatches(m.regex.value, html)) else None
  }

  function MatchLineOutcome(html: string, m: Matches): Option<bool>
  {
    if m.lineNum.Some? then Some(LineCount(html, '\n') == m.lineNum.value) else None
  }

  function MatchSizeOutcome(html: string, m: Matches): Option<bool>
  {
    if m.respSize.Some? then Some(Utf8Len(html) == m.respSize.value) else None
  }

  /** `is_match`: regex, exact line count and exact byte size, combined
      under AND or OR. The status-code set is not consulted here. */
  function IsMatch(html: string, m: Matches): (r: bool)
    ensures m.andAndAnd ==> (r <==>
      && (m.regex.Some? ==> RegexMatches(m.regex.value, html))
      && (m.lineNum.Some? ==> LineCount(html, '\n') == m.lineNum.value)
      && (m.respSize.Some? ==> Utf8Len(html) == m.respSize.value))
    ensures !m.andAndAnd ==> (r <==>
      || (m.regex.Some? && RegexMatches(m.regex.value, html))
      || (m.lineNum.Some? && LineCount(html, '\n') == m.lineNum.value)
      || (m.respSize.Some? && Utf8Len(html) == m.respSize.value)
      || (m.regex.None? && m.lineNum.None? && m.respSize.None?))
  {
    CombineMeaning(MatchRegexOutcome(html, m), MatchLineOutcome(html, m), MatchSizeOutcome(html, m), m.andAndAnd);
    Combine(MatchRegexOutcome(html, m), MatchLineOutcome(html, m), MatchSizeOutcome(html, m), m.andAndAnd)
  }

  /** The status-code set plays no part in `IsMatch`. */
  lemma IsMatchIgnoresStatus(html: string, m: Matches, codes: Option<set<u16>>)
    ensures IsMatch(html, m.(statusCode := codes)) == IsMatch(html, m)
  {
  }

  // ---------------------------------------------------------------------
  // Filter size specifications

  /** What one entry of the filter's size list says about a body size:
      satisfied, not satisfied, or skipped as malformed. */
  datatype SizeVerdict = Hit | Miss | Skip

  function Decide(b: bool): SizeVerdict { if b then Hit else Miss }

  /** One size entry. With exactly one `-` it is an inclusive range `A-B`
      whose halves must both parse, or it is skipped. Otherwise its
      non-digits are dropped and the rest must parse; then `>` makes it a
      strict lower bound, else `<` a strict upper bound, else an exact size. */
  function SizeEntry(v: string, size: nat): (r: SizeVerdict)
    ensures |Split(v, '-')| == 2 ==> (r == Skip <==>
              ParseUint(Split(v, '-')[0], USIZE_LIMIT).None? || ParseUint(Split(v, '-')[1], USIZE_LIMIT).None?)
    ensures |Split(v, '-')| != 2 ==> (r == Skip <==> ParseUint(KeepDigits(v), USIZE_LIMIT).None?)
  {
    var rangeStr := Split(v, '-');
    if |rangeStr| == 2 then
      match (ParseUint(rangeStr[0], USIZE_LIMIT), ParseUint(rangeStr[1], USIZE_LIMIT))
      case (Some(start), Some(end)) => Decide(size >= start && size <= end)
      case _ => Skip
    else
      match ParseUint(KeepDigits(v), USIZE_LIMIT)
      case None => Skip
      case Some(filterSize) =>
        if '>' in v then Decide(size > filterSize)
        else if '<' in v then Decide(size < filterSize)
        else Decide(size == filterSize)
  }

  /** The size criterion: the list is scanned in order and the first
      satisfied entry ends the scan, so it holds exactly when some entry is
      satisfied; skipped entries never make it hold. */
  function SizeListHolds(list: seq<string>, size: nat): (r: bool)
    ensures r <==> exists i | 0 <= i < |list| :: SizeEntry(list[i], size) == Hit
  {
    if |list| == 0 then false
    else if SizeEntry(list[0], size) == Hit then true
    else
      var rest := SizeListHolds(list[1..], size);
      assert forall i | 1 <= i < |list| :: list[i] == list[1..][i - 1];
      rest
  }

  /** `A-B` with both halves numbers is the inclusive range from A to B. */
  lemma RangeEntry(a: string, b: string, size: nat)
    requires '-' !in a && '-' !in b
    requires ParseUint(a, USIZE_LIMIT).Some? && ParseUint(b, USIZE_LIMIT).Some?
    ensures SizeEntry(a + "-" + b, size)
      == Decide(ParseUint(a, USIZE_LIMIT).value <= size <= ParseUint(b, USIZE_LIMIT).value)
  {
    SplitAfterPiece(a, '-', b);
    SplitWithoutSep(b, '-');
  }

  /** `A-B` where either half is not a number is skipped. */
  lemma RangeEntrySkipped(a: string, b: string, size: nat)
    requires '-' !in a && '-' !in b
    requires ParseUint(a, USIZE_LIMIT).None? || ParseUint(b, USIZE_LIMIT).None?
    ensures SizeEntry(a + "-" + b, size) == Skip
  {
    SplitAfterPiece(a, '-', b);
    SplitWithoutSep(b, '-');
  }

  /** A digit string that fits in `usize` together with its value. */
  predicate Numeral(d: string)
  {
    |d| > 0 && AllDigits(d) && DigitsValue(d) < USIZE_LIMIT
  }

  lemma NumeralParses(d: string)
    requires Numeral(d)
    ensures ParseUint(d, USIZE_LIMIT) == Some(DigitsValue(d))
    ensures '-' !in d && '>' !in d && '<' !in d
  {
    assert !IsDigit('-') && !IsDigit('>') && !IsDigit('<');
  }

  /** `>N` holds of sizes strictly above N. */
  lemma GreaterEntry(d: string, size: nat)
    requires Numeral(d)
    ensures SizeEntry(">" + d, size) == Decide(size > DigitsValue(d))
  {
    NumeralParses(d);
    PrefixedNumeral('>', d);
  }

  /** `<N` holds of sizes strictly below N. */
  lemma LessEntry(d: string, size: nat)
    requires Numeral(d)
    ensures SizeEntry("<" + d, size) == Decide(size < DigitsValue(d))
  {
    NumeralParses(d);
    PrefixedNumeral('<', d);
  }

  /** A bare `N` holds of size N only. */
  lemma ExactEntry(d: string, size: nat)
    requires Numeral(d)
    ensures SizeEntry(d, size) == Decide(size == DigitsValue(d))
  {
    NumeralParses(d);
    SplitWithoutSep(d, '-');
    KeepDigitsOfDigits(d);
  }

  lemma PrefixedNumeral(op: char, d: string)
    requires Numeral(d) && !IsDigit(op) && op != '-'
    ensures Split([op] + d, '-') == [[op] + d]
    ensures KeepDigits([op] + d) == d
    ensures op in [op] + d
  {
    NumeralParses(d);
    assert '-' !in [op] + d;
    SplitWithoutSep([op] + d, '-');
    KeepDigitsOfDigits(d);
  }

  /** `-5` has an empty first half, so it is skipped. */
  lemma LeadingDashSkipped(size: nat)
    ensures SizeEntry("-5", size) == Skip
  {
    assert "-5" == "" + "-" + "5";
    RangeEntrySkipped("", "5", size);
  }

  /** `>1-2` has the unparseable first half `>1`, so it is skipped. */
  lemma ComparisonRangeSkipped(size: nat)
    ensures SizeEntry(">1-2", size) == Skip
  {
    assert ">1-2" == ">1" + "-" + "2";
    assert !IsDigit(">1"[0]) && ">1"[0] != '+';
    assert ParseUint(">1", USIZE_LIMIT) == None;
    RangeEntrySkipped(">1", "2", size);
  }

  /** Any entry that is not a two-part range: skipped when no number is
      left once its non-digits are dropped; otherwise `>` anywhere makes it a
      strict lower bound, and only without `>` does `<` make it a strict
      upper bound. */
  lemma NonRangeEntry(v: string, size: nat)
    requires |Split(v, '-')| != 2
    ensures ParseUint(KeepDigits(v), USIZE_LIMIT).None? ==> SizeEntry(v, size) == Skip
    ensures ParseUint(KeepDigits(v), USIZE_LIMIT).Some? && '>' in v ==>
              SizeEntry(v, size) == Decide(size > ParseUint(KeepDigits(v), USIZE_LIMIT).value)
    ensures ParseUint(KeepDigits(v), USIZE_LIMIT).Some? && '>' !in v && '<' in v ==>
              SizeEntry(v, size) == Decide(size < ParseUint(KeepDigits(v), USIZE_LIMIT).value)
  {
  }

  /** An entry that is not a two-part range and has neither `>` nor `<` is
      read as the exact size its digits spell, wherever the digits stand. */
  lemma DigitsReadAsExact(v: string, size: nat, n: nat)
    requires |Split(v, '-')| != 2 && '>' !in v && '<' !in v
    requires ParseUint(KeepDigits(v), USIZE_LIMIT) == Some(n)
    ensures SizeEntry(v, size) == Decide(size == n)
  {
  }

  /** `<N>` holds `>` as well as `<`, and `>` is checked first: it is a
      strict lower bound. */
  lemma BothOperatorsReadAsGreater(d: string, size: nat)
    requires Numeral(d)
    ensures SizeEntry("<" + d + ">", size) == Decide(size > DigitsValue(d))
  {
    BracketedNumeral(d);
    NumeralParses(d);
    NonRangeEntry("<" + d + ">", size);
  }

  lemma BracketedNumeral(d: string)
    requires Numeral(d)
    ensures |Split("<" + d + ">", '-')| == 1
    ensures KeepDigits("<" + d + ">") == d
    ensures '>' in "<" + d + ">"
  {
    var v := "<" + d + ">";
    NumeralParses(d);
    assert v == "<" + (d + ">");
    assert '-' !in v;
    SplitWithoutSep(v, '-');
    KeepDigitsAppend("<", d + ">");
    KeepDigitsAppend(d, ">");
    KeepDigitsOfDigits(d);
    assert KeepDigits("<") == [] && KeepDigits(">") == [];
    assert v[|v| - 1] == '>';
  }

  /** Three numerals joined by two dashes split into three pieces, so the
      entry is not a range: its digits run together into one exact size
      (`1-2-3` is the exact size 123). */
  lemma TwoDashesReadAsExact(a: string, b: string, c: string, size: nat)
    requires AllDigits(a) && AllDigits(b) && AllDigits(c)
    requires Numeral(a + b + c)
    ensures SizeEntry(a + "-" + b + "-" + c, size) == Decide(size == DigitsValue(a + b + c))
  {
    TwoDashPieces(a, b, c);
    TwoDashDigits(a, b, c);
    NumeralParses(a + b + c);
    DigitsReadAsExact(a + "-" + b + "-" + c, size, DigitsValue(a + b + c));
  }

  lemma TwoDashPieces(a: string, b: string, c: string)
    requires AllDigits(a) && AllDigits(b) && AllDigits(c)
    ensures |Split(a + "-" + b + "-" + c, '-')| == 3
    ensures '>' !in a + "-" + b + "-" + c && '<' !in a + "-" + b + "-" + c
  {
    assert !IsDigit('-') && !IsDigit('>') && !IsDigit('<');
    assert '-' !in a && '-' !in b && '-' !in c;
    assert a + "-" + b + "-" + c == a + ['-'] + (b + "-" + c);
    SplitAfterPiece(a, '-', b + "-" + c);
    SplitAfterPiece(b, '-', c);
    SplitWithoutSep(c, '-');
  }

  lemma TwoDashDigits(a: string, b: string, c: string)
    requires AllDigits(a) && AllDigits(b) && AllDigits(c)
    ensures KeepDigits(a + "-" + b + "-" + c) == a + b + c
  {
    KeepDigitsOfDigits(a);
    KeepDigitsOfDigits(b);
    KeepDigitsOfDigits(c);
    KeepDigitsDash(a, b);
    KeepDigitsDash(a + "-" + b, c);
  }

  /** A dash contributes no digit. */
  lemma KeepDigitsDash(x: string, y: string)
    ensures KeepDigits(x + "-" + y) == KeepDigits(x) + KeepDigits(y)
  {
    KeepDigitsAppend(x + "-", y);
    KeepDigitsAppend(x, "-");
    DashHasNoDigit();
  }

  lemma DashHasNoDigit()
    ensures KeepDigits("-") == []
  {
    var s := "-";
    assert s[1..] == [];
    assert !IsDigit(s[0]);
  }

  /** Adding an entry that is skipped for this size never changes the criterion. */
  lemma SkippedEntryIrrelevant(list: seq<string>, v: string, size: nat)
    requires SizeEntry(v, size) == Skip
    ensures SizeListHolds(list + [v], size) == SizeListHolds(list, size)
  {
    var l := list + [v];
    if SizeListHolds(l, size) {
      var i :| 0 <= i < |l| && SizeEntry(l[i], size) == Hit;
      assert l[i] == list[i];
    }
    if SizeListHolds(list, size) {
      var i :| 0 <= i < |list| && SizeEntry(list[i], size) == Hit;
      assert l[i] == list[i];
    }
  }

  // ---------------------------------------------------------------------
  // Filter

  function FilterRegexOutcome(html: string, f: FilterRules): Option<bool>
  {
    if f.regex.Some? then Some(RegexMatches(f.regex.value, html)) else None
  }

  function FilterLineOutcome(html: string, f: FilterRules): Option<bool>
  {
    if f.lineNum.Some? then Some(LineCount(html, '\n') in f.lineNum.value) else None
  }

  function FilterSizeOutcome(html: string, f: FilterRules): Option<bool>
  {
    if f.respSize.Some? then Some(SizeListHolds(f.respSize.value, Utf8Len(html))) else None
  }

  /** `is_filter`: regex, line count in a set and byte size against a list of
      size entries, combined under AND or OR exactly as `IsMatch` combines. */
  function IsFilter(html: string, f: FilterRules): (r: bool)
    ensures f.andAndAnd ==> (r <==>
      && (f.regex.Some? ==> RegexMatches(f.regex.value, html))
      && (f.lineNum.Some? ==> LineCount(html, '\n') in f.lineNum.value)
      && (f.respSize.Some? ==> exists i | 0 <= i < |f.respSize.value| ::
            SizeEntry(f.respSize.value[i], Utf8Len(html)) == Hit))
    ensures !f.andAndAnd ==> (r <==>
      || (f.regex.Some? && RegexMatches(f.regex.value, html))
      || (f.lineNum.Some? && LineCount(html, '\n') in f.lineNum.value)
      || (f.respSize.Some? && exists i | 0 <= i < |f.respSize.value| ::
            SizeEntry(f.respSize.value[i], Utf8Len(html)) == Hit)
      || (f.regex.None? && f.lineNum.None? && f.respSize.None?))
  {
    CombineMeaning(FilterRegexOutcome(html, f), FilterLineOutcome(html, f), FilterSizeOutcome(html, f), f.andAndAnd);
    Combine(FilterRegexOutcome(html, f), FilterLineOutcome(html, f), FilterSizeOutcome(html, f), f.andAndAnd)
  }

  /** The status-code set plays no part in `IsFilter`. */
  lemma IsFilterIgnoresStatus(html: string, f: FilterRules, codes: Option<set<u16>>)
    ensures IsFilter(html, f.(statusCode := codes)) == IsFilter(html, f)
  {
  }

  /** A filter whose line set is the single count `n` and whose size list is
      the single decimal `k` decides exactly as a match on `n` lines and `k`
      bytes with the same regex and the same AND/OR flag. */
  lemma FilterAgreesWithMatch(html: string, re: Option<Regex>, n: Option<nat>, k: Option<nat>, andAndAnd: bool)
    requires k.Some? ==> k.value < USIZE_LIMIT
    ensures IsFilter(html, FilterRules(re, None,
              if n.Some? then Some({n.value}) else None,
              if k.Some? then Some([NatToString(k.value)]) else None, andAndAnd))
        == IsMatch(html, Matches(re, None, n, k, andAndAnd))
  {
    if k.Some? {
      var d := NatToString(k.value);
      DigitsValueOfNatToString(k.value);
      ExactEntry(d, Utf8Len(html));
      assert SizeListHolds([d], Utf8Len(html)) == (Utf8Len(html) == k.value);
    }
  }
}
