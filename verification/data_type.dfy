/** The records the fuzzer passes between its parts: rule sets, fetched
    responses, scan modes and the outcome kinds it counts. */
module DataType {
  import opened Results
  import opened Text

  type u16 = x: int | 0 <= x < 0x1_0000

  /** A compiled regular expression. The regex engine is not modelled: a
      pattern is known only through the texts it finds a match in. */
  datatype Regex = Regex(pattern: string, accepts: string -> bool)

  /** `regex.is_match(text)`: the pattern matches somewhere in `text`. */
  predicate RegexMatches(re: Regex, text: string)
  {
    re.accepts(text)
  }

  /** Match rules: a record is kept when its body has this shape. */
  datatype Matches = Matches(
    regex: Option<Regex>,
    statusCode: Option<set<u16>>,
    lineNum: Option<nat>,
    respSize: Option<nat>,
    andAndAnd: bool)

  /** Filter rules: a record is dropped when its body has one of these shapes. */
  datatype FilterRules = FilterRules(
    regex: Option<Regex>,
    statusCode: Option<set<u16>>,
    lineNum: Option<set<nat>>,
    respSize: Option<seq<string>>,
    andAndAnd: bool)

  /** One fetched response; `durationMs` is the elapsed time in milliseconds
      and `remoteIp` the peer address already rendered as text. */
  datatype HttpResp = HttpResp(
    url: string,
    status: u16,
    html: seq<byte>,
    durationMs: nat,
    remoteIp: Option<string>)

  datatype ScanMode = Debug | Stats | Silent

  /** The outcome kinds the statistics table counts. */
  datatype Stats =
    | IOErr | Done | Hits | DNSErr | TimeOut
    | C404 | C500 | C200 | C301 | C302 | C403 | C401 | C000
}
