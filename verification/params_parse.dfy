/** Turning command-line option values into numbers, code sets, string
    lists and the match/filter rule sets. */
module ParamsParse {
  import opened Results
  import opened Text
  import opened DataType

  /** What the option parser hands over: the value of every option given with
      a value, and the names of the flags given without one. */
  datatype Getopts = Getopts(values: map<string, string>, flags: set<string>)

  /** `opt_str(name)`: the option's value, if it was given. */
  function OptStr(m: Getopts, name: string): Option<string>
  {
    if name in m.values then Some(m.values[name]) else None
  }

  /** `opt_present(name)`: the option was given, with or without a value. */
  predicate OptPresent(m: Getopts, name: string)
  {
    name in m.flags || name in m.values
  }

  /** Regex compilation, which may reject a pattern with an error message. */
  type Compiler = string -> Result<Regex, string>

  // ---------------------------------------------------------------------
  // Single numbers

  /** `opt_int_some_parm`: the option's value as a `usize`, or `None` when
      the option is absent or its value does not parse. */
  function OptIntSomeParm(name: string, m: Getopts): (r: Option<nat>)
    ensures r.Some? <==> name in m.values && ParseUint(m.values[name], USIZE_LIMIT).Some?
    ensures r.Some? ==> r.value == ParseUint(m.values[name], USIZE_LIMIT).value
  {
    match OptStr(m, name)
    case Some(s) =>
      (match ParseUint(s, USIZE_LIMIT)
       case Some(u) => Some(u)
       case None => None)
    case None => None
  }

  /** `opt_int_parm`: like `OptIntSomeParm`, but `default` stands in for a
      missing or unparseable value. */
  function OptIntParm(name: string, m: Getopts, default: nat): (r: nat)
    ensures OptIntSomeParm(name, m).Some? ==> r == OptIntSomeParm(name, m).value
    ensures OptIntSomeParm(name, m).None? ==> r == default
  {
    if OptStr(m, name).Some? && ParseUint(OptStr(m, name).value, USIZE_LIMIT).Some? then
      ParseUint(OptStr(m, name).value, USIZE_LIMIT).value
    else
      default
  }

  /** Giving an option the decimal text of `n` makes `OptIntParm` read `n`. */
  lemma OptIntParmReadsDecimal(name: string, m: Getopts, n: nat, default: nat)
    requires n < USIZE_LIMIT
    ensures OptIntParm(name, m.(values := m.values[name := NatToString(n)]), default) == n
  {
    ParseNatToString(n, USIZE_LIMIT);
  }

  // ---------------------------------------------------------------------
  // Comma-separated sets

  /** The values of those pieces that parse below `limit`; the rest are dropped. */
  function ParsePieces(pieces: seq<string>, limit: nat): (r: set<nat>)
    ensures forall n :: n in r <==> exists i | 0 <= i < |pieces| :: ParseUint(pieces[i], limit) == Some(n)
  {
    if |pieces| == 0 then {}
    else
      var rest := ParsePieces(pieces[1..], limit);
      assert forall i | 1 <= i < |pieces| :: pieces[i] == pieces[1..][i - 1];
      match ParseUint(pieces[0], limit)
      case Some(u) => {u} + rest
      case None => rest
  }

  /** The pieces of a comma-separated list that parse below `limit`. */
  function ParseList(s: string, limit: nat): (r: set<nat>)
    ensures forall n | n in r :: n < limit
  {
    ParsePieces(Split(s, ','), limit)
  }

  function AsU16(s: set<nat>): (r: set<u16>)
    requires forall n | n in s :: n < U16_LIMIT
    ensures forall n: int :: n in r <==> n in s
  {
    set n: u16 | n in s
  }

  /** `opt_usize_split`: with the option given, the comma-separated pieces of
      its value that parse as `usize` (no trimming); without it, `None` when
      `defaults` is empty and otherwise the pieces of `defaults` that parse. */
  function OptUsizeSplit(name: string, defaults: string, m: Getopts): (r: Option<set<nat>>)
    ensures name in m.values ==> r == Some(ParseList(m.values[name], USIZE_LIMIT))
    ensures name !in m.values ==> (r.None? <==> defaults == [])
    ensures name !in m.values && defaults != [] ==> r == Some(ParseList(defaults, USIZE_LIMIT))
  {
    match OptStr(m, name)
    case Some(s) => Some(ParsePieces(Split(s, ','), USIZE_LIMIT))
    case None =>
      if |defaults| == 0 then None
      else Some(ParsePieces(Split(defaults, ','), USIZE_LIMIT))
  }

  /** `opt_int_split`: as `OptUsizeSplit` for `u16` codes, except that when the
      option is absent and `defaults` is not empty, 200 and 403 are added. */
  function OptIntSplit(name: string, defaults: string, m: Getopts): (r: Option<set<u16>>)
    ensures name in m.values ==> r.Some? && forall n: int :: n in r.value <==> n in ParseList(m.values[name], U16_LIMIT)
    ensures name !in m.values ==> (r.None? <==> defaults == [])
    ensures name !in m.values && defaults != [] ==>
              && r.Some?
              && forall n: int :: n in r.value <==> n in ParseList(defaults, U16_LIMIT) || n == 200 || n == 403
  {
    match OptStr(m, name)
    case Some(s) => Some(AsU16(ParsePieces(Split(s, ','), U16_LIMIT)))
    case None =>
      if |defaults| == 0 then None
      else Some(AsU16(ParsePieces(Split(defaults, ','), U16_LIMIT)) + {200, 403})
  }

  /** A code too large for `u16` is dropped from the set. */
  lemma OversizedCodeDropped(n: nat)
    requires n >= U16_LIMIT
    ensures ParseUint(NatToString(n), U16_LIMIT) == None
    ensures ParseUint(NatToString(n), USIZE_LIMIT).Some? <==> n < USIZE_LIMIT
  {
    DigitsValueOfNatToString(n);
  }

  /** Pieces are not trimmed: one that starts with a space is dropped. */
  lemma UntrimmedPieceDropped(piece: string, limit: nat)
    requires |piece| > 0 && piece[0] == ' '
    ensures ParseUint(piece, limit) == None
  {
  }

  // ---------------------------------------------------------------------
  // String lists

  /** `opt_vec_split`: `None` without the option; otherwise one trimmed entry
      per comma-separated piece, so one more entry than there are commas. */
  function OptVecSplit(name: string, m: Getopts): (r: Option<seq<string>>)
    ensures r.Some? <==> name in m.values
    ensures r.Some? ==> |r.value| == Count(m.values[name], ',') + 1
    ensures r.Some? ==> forall i | 0 <= i < |r.value| :: r.value[i] == Trim(Split(m.values[name], ',')[i])
  {
    match OptStr(m, name)
    case Some(s) => Some(TrimAll(Split(s, ',')))
    case None => None
  }

  function TrimAll(pieces: seq<string>): (r: seq<string>)
    ensures |r| == |pieces|
    ensures forall i | 0 <= i < |r| :: r[i] == Trim(pieces[i])
  {
    if |pieces| == 0 then [] else [Trim(pieces[0])] + TrimAll(pieces[1..])
  }

  // ---------------------------------------------------------------------
  // Rule sets

  /** `Regex::new` applied to an optional pattern. */
  function CompileOpt(pattern: Option<string>, compile: Compiler): (r: Result<Option<Regex>, string>)
    ensures pattern.None? ==> r == Ok(None)
    ensures pattern.Some? ==> (r.Err? <==> compile(pattern.value).Err?)
    ensures pattern.Some? && r.Err? ==> r.error == compile(pattern.value).error
    ensures pattern.Some? && r.Ok? ==> r.value == Some(compile(pattern.value).value)
  {
    match pattern
    case None => Ok(None)
    case Some(p) =>
      (match compile(p)
       case Ok(re) => Ok(Some(re))
       case Err(e) => Err(e))
  }

  /** `filter_params`: an error when `--fr` does not compile; no rule set
      when none of `--fr`, `--fc`, `--fl`, `--fs` is given; otherwise the
      rules, in AND mode unless `--or-filter` is present. */
  function FilterParams(m: Getopts, compile: Compiler): (r: Result<Option<FilterRules>, string>)
    ensures r.Err? <==> "fr" in m.values && compile(m.values["fr"]).Err?
    ensures r.Ok? ==> (r.value.None? <==>
      "fr" !in m.values && "fc" !in m.values && "fl" !in m.values && "fs" !in m.values)
    ensures r.Ok? && r.value.Some? ==> r.value.value.andAndAnd == !OptPresent(m, "or-filter")
    ensures r.Ok? && r.value.Some? ==> r.value.value.regex == CompileOpt(OptStr(m, "fr"), compile).value
    ensures r.Ok? && r.value.Some? ==>
      && r.value.value.statusCode == OptIntSplit("fc", "", m)
      && r.value.value.lineNum == OptUsizeSplit("fl", "", m)
      && r.value.value.respSize == OptVecSplit("fs", m)
  {
    match CompileOpt(OptStr(m, "fr"), compile)
    case Err(e) => Err(e)
    case Ok(filterRespRegex) =>
      var filterHttpStatusCode := OptIntSplit("fc", "", m);
      var filterRespLine := OptUsizeSplit("fl", "", m);
      var filterRespSize := OptVecSplit("fs", m);
      if filterRespRegex.None? && filterHttpStatusCode.None? && filterRespLine.None? && filterRespSize.None? then
        Ok(None)
      else
        Ok(Some(FilterRules(
          filterRespRegex, filterHttpStatusCode, filterRespLine, filterRespSize,
          !OptPresent(m, "or-filter"))))
  }

  /** `match_params`, with the default status-code list as a parameter: an
      error when `--mr` does not compile; no rule set when there is no regex,
      no status-code set, and neither `--ms` nor `--ml` parses; otherwise the
      rules, in AND mode unless `--or-match` is present. */
  function MatchParams(m: Getopts, compile: Compiler, defaultCodes: string): (r: Result<Option<Matches>, string>)
    ensures r.Err? <==> "mr" in m.values && compile(m.values["mr"]).Err?
    ensures r.Ok? ==> (r.value.None? <==>
      && "mr" !in m.values
      && ("mc" !in m.values && defaultCodes == [])
      && OptIntSomeParm("ms", m).None?
      && OptIntSomeParm("ml", m).None?)
    ensures r.Ok? && r.value.Some? ==> r.value.value.andAndAnd == !OptPresent(m, "or-match")
    ensures r.Ok? && r.value.Some? ==> r.value.value.regex == CompileOpt(OptStr(m, "mr"), compile).value
    ensures r.Ok? && r.value.Some? ==>
      && r.value.value.statusCode == OptIntSplit("mc", defaultCodes, m)
      && r.value.value.respSize == OptIntSomeParm("ms", m)
      && r.value.value.lineNum == OptIntSomeParm("ml", m)
  {
    match CompileOpt(OptStr(m, "mr"), compile)
    case Err(e) => Err(e)
    case Ok(matchRegex) =>
      var matchHttpStatusCode := OptIntSplit("mc", defaultCodes, m);
      var matchRespSize := OptIntSomeParm("ms", m);
      var matchRespLine := OptIntSomeParm("ml", m);
      if matchRegex.None? && matchHttpStatusCode.None? && matchRespSize.None? && matchRespLine.None? then
        Ok(None)
      else
        Ok(Some(Matches(
          matchRegex, matchHttpStatusCode, matchRespLine, matchRespSize,
          !OptPresent(m, "or-match"))))
  }

  /** With a non-empty default code list there is always a status-code set,
      so a well-formed command line always yields match rules. */
  lemma MatchParamsAlwaysRulesWithDefaults(m: Getopts, compile: Compiler, defaultCodes: string)
    requires defaultCodes != []
    requires MatchParams(m, compile, defaultCodes).Ok?
    ensures MatchParams(m, compile, defaultCodes).value.Some?
  {
  }
}
