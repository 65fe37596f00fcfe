/** Settings the program's entry point derives from the command line before
    the scan starts: the `--mc` status-code set, the concurrency limit, the
    scan mode and whether progress is printed, and the proxy credentials. */
module MainOptions {
  import opened Results
  import opened Text
  import opened DataType
  import opened ParamsParse

  // ---------------------------------------------------------------------
  // `--mc`

  /** `--mc` as the entry point reads it: the loop visits every
      comma-separated piece but parses the whole option value each time, so
      the set holds that one value if the whole text is a `u16` and is empty
      otherwise. Without the option the set is {200, 403}. */
  function McCodesAsWritten(m: Getopts): (r: set<u16>)
    ensures "mc" !in m.values ==> r == {200, 403}
    ensures "mc" in m.values && ParseUint(m.values["mc"], U16_LIMIT).Some? ==>
              r == {ParseUint(m.values["mc"], U16_LIMIT).value}
    ensures "mc" in m.values && ParseUint(m.values["mc"], U16_LIMIT).None? ==> r == {}
  {
    match OptStr(m, "mc")
    case Some(s) => InsertWholeForEachPiece(Split(s, ','), s)
    case None => {200, 403}
  }

  /** The loop of the entry point: one insertion attempt per piece, each
      attempt parsing `s` rather than the piece. */
  function InsertWholeForEachPiece(pieces: seq<string>, s: string): (r: set<u16>)
    ensures |pieces| == 0 ==> r == {}
    ensures |pieces| > 0 && ParseUint(s, U16_LIMIT).Some? ==> r == {ParseUint(s, U16_LIMIT).value}
    ensures |pieces| > 0 && ParseUint(s, U16_LIMIT).None? ==> r == {}
  {
    if |pieces| == 0 then {}
    else
      var rest := InsertWholeForEachPiece(pieces[1..], s);
      match ParseUint(s, U16_LIMIT)
      case Some(u) => {u} + rest
      case None => rest
  }

  /** `--mc` as evidently intended: every piece that parses as a `u16`. */
  function McCodes(m: Getopts): (r: set<u16>)
    ensures "mc" !in m.values ==> r == {200, 403}
    ensures "mc" in m.values ==> forall n: int :: n in r <==> n in ParseList(m.values["mc"], U16_LIMIT)
  {
    match OptStr(m, "mc")
    case Some(s) => AsU16(ParseList(s, U16_LIMIT))
    case None => {200, 403}
  }

  lemma ParseTwoCodes(s: string, a: string, b: string)
    requires s == a + "," + b && ',' !in a && ',' !in b
    ensures ParseList(s, U16_LIMIT) == ParsePieces([a, b], U16_LIMIT)
  {
    SplitAfterPiece(a, ',', b);
    SplitWithoutSep(b, ',');
  }

  /** A code written in decimal parses to itself. */
  lemma ParseCode(s: string, n: nat)
    requires n < U16_LIMIT && s == NatToString(n)
    ensures ParseUint(s, U16_LIMIT) == Some(n)
  {
    ParseNatToString(n, U16_LIMIT);
  }

  lemma ParseTwoCodeList(s: string, a: nat, b: nat)
    requires a < U16_LIMIT && b < U16_LIMIT
    requires s == NatToString(a) + "," + NatToString(b)
    ensures ParseList(s, U16_LIMIT) == {a, b}
  {
    assert ',' !in NatToString(a) && ',' !in NatToString(b) by {
      assert !IsDigit(',');
    }
    ParseTwoCodes(s, NatToString(a), NatToString(b));
    ParseCode(NatToString(a), a);
    ParseCode(NatToString(b), b);
    var p := [NatToString(a), NatToString(b)];
    assert p[1..] == [NatToString(b)];
    assert p[1..][1..] == [];
  }

  /** The documented default list reads as {200, 403}. */
  lemma DefaultCodes(defaults: string)
    requires defaults == "200,403"
    ensures ParseList(defaults, U16_LIMIT) == {200, 403}
  {
    assert NatToString(200) == "200" && NatToString(403) == "403";
    ParseTwoCodeList(defaults, 200, 403);
  }

  /** Without `--mc`, `opt_int_split` with a default list that itself reads
      as {200, 403} yields exactly {200, 403}. */
  lemma OptIntSplitDefaultCodes(m: Getopts, defaults: string)
    requires defaults != [] && ParseList(defaults, U16_LIMIT) == {200, 403}
    requires "mc" !in m.values
    ensures OptIntSplit("mc", defaults, m) == Some({200, 403})
  {
    var r := OptIntSplit("mc", defaults, m).value;
    assert forall n: int :: n in r <==> n == 200 || n == 403;
    assert r == {200, 403};
  }

  /** With `--mc`, `opt_int_split` keeps exactly the pieces that parse. */
  lemma OptIntSplitGivenCodes(m: Getopts, defaults: string)
    requires "mc" in m.values
    ensures OptIntSplit("mc", defaults, m) == Some(McCodes(m))
  {
    var r := OptIntSplit("mc", defaults, m).value;
    assert forall n: int :: n in r <==> n in McCodes(m);
  }

  /** The intended reading is what the program's own `opt_int_split`
      computes with the documented default list "200,403". */
  lemma McCodesIsOptIntSplit(m: Getopts, defaults: string)
    requires defaults == "200,403"
    ensures OptIntSplit("mc", defaults, m) == Some(McCodes(m))
  {
    if "mc" !in m.values {
      DefaultCodes(defaults);
      OptIntSplitDefaultCodes(m, defaults);
    } else {
      OptIntSplitGivenCodes(m, defaults);
    }
  }

  /** The discrepancy: `--mc 200,404` selects no code at all as written,
      where the intended reading selects 200 and 404. */
  lemma McCodesWitness(m: Getopts, s: string)
    requires s == "200,404" && OptStr(m, "mc") == Some(s)
    ensures McCodesAsWritten(m) == {}
    ensures McCodes(m) == {200, 404}
  {
    assert s[3] == ',' && !IsDigit(s[3]);
    assert ParseUint(s, U16_LIMIT) == None;
    assert NatToString(200) == "200" && NatToString(404) == "404";
    ParseTwoCodeList(s, 200, 404);
  }

  // ---------------------------------------------------------------------
  // Concurrency

  function Max(a: nat, b: nat): nat { if a >= b then a else b }

  /** More parallel requests than words is cut to half the word count, but
      to at least one; otherwise the requested number stands. */
  function ClampConcurrency(concurrentNum: nat, wordlistLen: nat): (r: nat)
    ensures concurrentNum <= wordlistLen ==> r == concurrentNum
    ensures r <= concurrentNum
    ensures r <= Max(wordlistLen, 1)
    ensures r == 0 <==> concurrentNum == 0
    ensures concurrentNum > wordlistLen ==> r == Max(wordlistLen / 2, 1)
  {
    if concurrentNum > wordlistLen then
      var c := wordlistLen / 2;
      if c == 0 then 1 else c
    else
      concurrentNum
  }

  // ---------------------------------------------------------------------
  // Scan mode

  /** `--stats` selects the statistics mode and `--silent` overrides it;
      the default is the debug mode. */
  function SelectScanMode(m: Getopts): (r: ScanMode)
    ensures r == Silent <==> OptPresent(m, "silent")
    ensures r == ScanMode.Stats <==> OptPresent(m, "stats") && !OptPresent(m, "silent")
    ensures r == Debug <==> !OptPresent(m, "stats") && !OptPresent(m, "silent")
  {
    if OptPresent(m, "silent") then Silent
    else if OptPresent(m, "stats") then ScanMode.Stats
    else Debug
  }

  /** Progress is printed in the debug and statistics modes. */
  function PrintState(mode: ScanMode): (r: bool)
    ensures r <==> mode != Silent
  {
    mode == Debug || mode == ScanMode.Stats
  }

  lemma PrintStateUnlessSilent(m: Getopts)
    ensures PrintState(SelectScanMode(m)) <==> !OptPresent(m, "silent")
  {
  }

  // ---------------------------------------------------------------------
  // Proxy

  datatype Proxy = Proxy(server: string, user: string, pass: string)

  const ProxyAuthError := "Failed to format proxy authentication information"

  /** The proxy block of the entry point. It reads the option named "p";
      when present, a `-U` value is split at its first `:` into user and
      password (the password may itself contain `:`), and a value without
      `:` is an error. */
  function ProxySettings(m: Getopts): (r: Result<Proxy, string>)
    ensures "p" !in m.values ==> r == Ok(Proxy("", "", ""))
    ensures "p" in m.values && "U" !in m.values ==> r == Ok(Proxy(m.values["p"], "", ""))
    ensures "p" in m.values && "U" in m.values ==> (r.Err? <==> ':' !in m.values["U"])
    ensures r.Err? ==> r.error == ProxyAuthError
    ensures r.Ok? && "p" in m.values && "U" in m.values ==>
              && r.value.server == m.values["p"]
              && ':' !in r.value.user
              && r.value.user + ":" + r.value.pass == m.values["U"]
  {
    match OptStr(m, "p")
    case None => Ok(Proxy("", "", ""))
    case Some(server) =>
      match OptStr(m, "U")
      case None => Ok(Proxy(server, "", ""))
      case Some(s) =>
        var auth := SplitOnce(s, ':');
        if |auth| != 2 then Err(ProxyAuthError)
        else Ok(Proxy(server, auth[0], auth[1]))
  }
}
