/** The consumer side: the message sender a worker formats output through,
    one worker's handling of a fetched record (filter, then match, then the
    optional script, then output, hit count and result file), and the
    worker loop that drains the hand-off queue. */
module DataHandler {
  import opened Results
  import opened Text
  import opened DataType
  import opened Common
  import opened ErrorStats
  import opened ResponseQueue

  // ---------------------------------------------------------------------
  // Message sender

  /** Terminal styles; rendering them as escape codes is not modelled. */
  datatype Style = GreenBold | Blue | DimBold | YellowBold | RedBold | BlueBold | CyanBold

  /** What goes down the progress channel: a bare line, or a styled one. */
  datatype Message = Plain(text: string) | Styled(style: Style, text: string)

  /** The details a debug-mode line shows about a record. */
  datatype PrintData = PrintData(
    status: nat, ipv4: string, size: nat, lines: nat, duration: nat,
    url: string, scriptOutput: string)

  /** `MsgSender` without its channel: the pending message and the details
      of the current record, if the debug mode recorded any. */
  datatype MsgSender = MsgSender(msg: string, printOpt: Option<PrintData>)

  function SetMsg(s: MsgSender, msg: string): (r: MsgSender)
    ensures r.msg == msg && r.printOpt == s.printOpt
  {
    s.(msg := msg)
  }

  /** `set_script_output`: attach the script's output to the current
      record's details; without details nothing changes. */
  function SetScriptOutput(s: MsgSender, out: string): (r: MsgSender)
    ensures s.printOpt.None? ==> r == s
    ensures s.printOpt.Some? ==> r.msg == s.msg && r.printOpt == Some(s.printOpt.value.(scriptOutput := out))
  {
    match s.printOpt
    case Some(opt) => s.(printOpt := Some(opt.(scriptOutput := out)))
    case None => s
  }

  /** `debug`: record the current record's details. */
  function WithDebug(s: MsgSender, data: PrintData): (r: MsgSender)
    ensures r.printOpt == Some(data) && r.msg == s.msg
  {
    s.(printOpt := Some(data))
  }

  /** The debug-mode line for a record, with the script's output appended
      when there is any. */
  function DetailText(d: PrintData): (r: string)
    ensures d.scriptOutput == "" ==> |r| > |d.url| && r[|r| - |d.url|..] == d.url
    ensures d.scriptOutput != "" ==> |r| > |d.scriptOutput| && r[|r| - |d.scriptOutput|..] == d.scriptOutput
  {
    var head := "[Status: " + NatToString(d.status) + ", Size: " + NatToString(d.size)
      + ", Lines: " + NatToString(d.lines) + ", Duration: " + NatToString(d.duration)
      + "ms, IP: " + d.ipv4 + "]\n\t* " + d.url;
    if d.scriptOutput != "" then head + "\toutput: " + d.scriptOutput else head
  }

  /** The script's output never changes the rest of the line: a non-empty
      output is appended after a tab, and an empty one adds nothing. */
  lemma DetailTextScriptSuffix(d: PrintData)
    ensures DetailText(d)
      == DetailText(d.(scriptOutput := "")) + (if d.scriptOutput != "" then "\toutput: " + d.scriptOutput else "")
  {
  }

  /** `send_color`: the record's details when there are any, otherwise the
      pending message when it is not empty, otherwise nothing. */
  function SendColor(s: MsgSender, color: Style): (out: seq<Message>)
    ensures |out| <= 1
    ensures out == [] <==> s.printOpt.None? && s.msg == ""
    ensures s.printOpt.Some? ==> out == [Styled(color, DetailText(s.printOpt.value))]
    ensures s.printOpt.None? && s.msg != "" ==> out == [Styled(color, s.msg)]
  {
    match s.printOpt
    case Some(d) => [Styled(color, DetailText(d))]
    case None => if s.msg != "" then [Styled(color, s.msg)] else []
  }

  /** `send`: the pending message as a bare line; nothing when it is empty. */
  function Send(s: MsgSender): (out: seq<Message>)
    ensures out == [] <==> s.msg == ""
    ensures out != [] ==> out == [Plain(s.msg)]
  {
    if s.msg != "" then [Plain(s.msg)] else []
  }

  // ---------------------------------------------------------------------
  // One record

  /** The optional script hook: body text in, output text or an error out. */
  datatype ScriptHook = ScriptHook(run: string -> Result<string, string>)

  /** What a worker is started with. `decode` stands for the lossy UTF-8
      decoding of a body; `saveAs` says whether a result file is open. */
  datatype WorkerConfig = WorkerConfig(
    mode: ScanMode,
    matches: Option<Matches>,
    filters: Option<FilterRules>,
    script: Option<ScriptHook>,
    saveAs: bool,
    decode: seq<byte> -> string)

  /** What a worker has produced so far: its sender, the lines sent, the
      statistics table and the text written to the result file. */
  datatype WorkerState = WorkerState(
    sender: MsgSender, out: seq<Message>, stats: StatsTable, file: string)

  /** The colour of a kept record's debug line, by status code. */
  function StatusStyle(status: u16): (r: Style)
    ensures r == GreenBold <==> status == 200
    ensures r == Blue <==> status == 301
    ensures r == DimBold <==> status == 404 || status == 400
    ensures r == YellowBold <==> status == 403
    ensures r == RedBold <==> status == 500
    ensures r == BlueBold <==> status == 401
    ensures r == CyanBold <==> status !in {200, 301, 404, 403, 500, 400, 401}
  {
    match status
    case 200 => GreenBold
    case 301 => Blue
    case 404 => DimBold
    case 403 => YellowBold
    case 500 => RedBold
    case 400 => DimBold
    case 401 => BlueBold
    case _ => CyanBold
  }

  /** The details a debug-mode line shows: the body's size in bytes and its
      number of lines, and "None" when the peer address is unknown. */
  function PrintDataOf(resp: HttpResp): (r: PrintData)
    ensures r.status == resp.status && r.url == resp.url && r.duration == resp.durationMs
    ensures r.size == |resp.html|
    ensures r.lines == |Lines(resp.html, 10)|
    ensures resp.remoteIp.None? ==> r.ipv4 == "None"
    ensures resp.remoteIp.Some? ==> r.ipv4 == resp.remoteIp.value
    ensures r.scriptOutput == ""
  {
    LineCountIsNumberOfLines(resp.html, 10);
    PrintData(
      resp.status,
      match resp.remoteIp case Some(ip) => ip case None => "None",
      |resp.html|,
      LineCount(resp.html, 10),
      resp.durationMs,
      resp.url,
      "")
  }

  /** A record is dropped by a configured filter it satisfies. */
  predicate Filtered(cfg: WorkerConfig, resp: HttpResp)
  {
    cfg.filters.Some? && IsFilter(cfg.decode(resp.html), cfg.filters.value)
  }

  /** A record is dropped by configured match rules it does not satisfy. */
  predicate Unmatched(cfg: WorkerConfig, resp: HttpResp)
  {
    cfg.matches.Some? && !IsMatch(cfg.decode(resp.html), cfg.matches.value)
  }

  /** A record reaches the output when no filter drops it and the match rules keep it. */
  predicate Survives(cfg: WorkerConfig, resp: HttpResp)
  {
    !Filtered(cfg, resp) && !Unmatched(cfg, resp)
  }

  /** What the script hook produced for `html`: its output when a hook is
      configured and succeeded, and nothing otherwise. */
  function ScriptResult(cfg: WorkerConfig, html: string): Option<string>
  {
    if cfg.script.Some? && cfg.script.value.run(html).Ok? then Some(cfg.script.value.run(html).value) else None
  }

  /** The script's output as a kept record's debug line shows it: empty when
      there is no hook or the hook failed. */
  function ScriptOutput(cfg: WorkerConfig, resp: HttpResp): string
  {
    match ScriptResult(cfg, cfg.decode(resp.html))
    case Some(output) => output
    case None => ""
  }

  /** Running the hook: a successful run replaces the script output of the
      current record's details; a failed run, a missing hook or missing
      details leave the sender as it was. */
  function RunScript(cfg: WorkerConfig, sender: MsgSender, html: string): (r: MsgSender)
    ensures r.msg == sender.msg
    ensures sender.printOpt.None? || ScriptResult(cfg, html).None? ==> r == sender
    ensures sender.printOpt.Some? && ScriptResult(cfg, html).Some? ==>
              && r.printOpt.Some?
              && r.printOpt.value.scriptOutput == ScriptResult(cfg, html).value
              && r.printOpt.value.(scriptOutput := "") == sender.printOpt.value.(scriptOutput := "")
  {
    match cfg.script
    case None => sender
    case Some(hook) =>
      match hook.run(html)
      case Ok(output) => SetScriptOutput(sender, output)
      case Err(_) => sender
  }

  /** One iteration of the worker body for a dequeued record. Filtering
      comes first, matching second; a surviving record is reported, counted
      as one hit and appended to the result file as its URL and a newline. */
  function HandleRecord(cfg: WorkerConfig, w: WorkerState, resp: HttpResp): (r: WorkerState)
    requires Hits in w.stats
    ensures r.stats.Keys == w.stats.Keys
    ensures Survives(cfg, resp) ==> BumpedOnce(w.stats, r.stats, Hits)
    ensures !Survives(cfg, resp) ==> r.stats == w.stats
    ensures r.file == w.file + (if Survives(cfg, resp) && cfg.saveAs then resp.url + "\n" else "")
    ensures cfg.mode != Debug ==>
              r.out == w.out + (if Survives(cfg, resp) && resp.url != "" then [Plain(resp.url)] else [])
    ensures cfg.mode == Debug ==>
              |r.out| == |w.out| + (if Filtered(cfg, resp) then 0 else 1)
  {
    var html := cfg.decode(resp.html);
    var sender := if cfg.mode == Debug then WithDebug(w.sender, PrintDataOf(resp)) else w.sender;
    if cfg.filters.Some? && IsFilter(html, cfg.filters.value) then
      w.(sender := sender)
    else if cfg.matches.Some? && !IsMatch(html, cfg.matches.value) then
      var emitted := if cfg.mode == Debug then SendColor(sender, RedBold) else [];
      w.(sender := sender, out := w.out + emitted)
    else
      var sender := RunScript(cfg, sender, html);
      var sender := if cfg.mode == Debug then sender else SetMsg(sender, resp.url);
      var emitted := if cfg.mode == Debug then SendColor(sender, StatusStyle(resp.status)) else Send(sender);
      WorkerState(
        sender,
        w.out + emitted,
        StatsInc(w.stats, Hits),
        if cfg.saveAs then w.file + resp.url + "\n" else w.file)
  }

  /** A filtered record is dropped whatever the match rules say of it. */
  lemma FilterBeforeMatch(cfg: WorkerConfig, w: WorkerState, resp: HttpResp)
    requires Hits in w.stats
    requires Filtered(cfg, resp)
    ensures var r := HandleRecord(cfg, w, resp);
      r.stats == w.stats && r.file == w.file && r.out == w.out
  {
  }

  /** In the debug mode a filtered record prints nothing, an unmatched one
      prints its details in red, and a kept one prints its details, with any
      script output, in the colour of its status code. */
  lemma DebugModeOutput(cfg: WorkerConfig, w: WorkerState, resp: HttpResp)
    requires Hits in w.stats
    requires cfg.mode == Debug
    ensures Filtered(cfg, resp) ==> HandleRecord(cfg, w, resp).out == w.out
    ensures !Filtered(cfg, resp) && Unmatched(cfg, resp) ==>
              HandleRecord(cfg, w, resp).out == w.out + [Styled(RedBold, DetailText(PrintDataOf(resp)))]
    ensures Survives(cfg, resp) ==>
              HandleRecord(cfg, w, resp).out
                == w.out + [Styled(StatusStyle(resp.status), DetailText(PrintDataOf(resp).(scriptOutput := ScriptOutput(cfg, resp))))]
  {
  }

  // ---------------------------------------------------------------------
  // Draining the queue

  /** The worker body applied to `records` in order. */
  function Drain(cfg: WorkerConfig, w: WorkerState, records: seq<HttpResp>): (r: WorkerState)
    requires Hits in w.stats
    ensures r.stats.Keys == w.stats.Keys
    decreases |records|
  {
    if |records| == 0 then w
    else Drain(cfg, HandleRecord(cfg, w, records[0]), records[1..])
  }

  /** Draining in two batches ends where one drain of both ends, so a
      worker that keeps up with arrivals loses and repeats nothing. */
  lemma {:induction false} DrainAppend(cfg: WorkerConfig, w: WorkerState, a: seq<HttpResp>, b: seq<HttpResp>)
    requires Hits in w.stats
    ensures Drain(cfg, w, a + b) == Drain(cfg, Drain(cfg, w, a), b)
    decreases |a|
  {
    if |a| == 0 {
      assert a + b == b;
    } else {
      assert (a + b)[1..] == a[1..] + b;
      DrainAppend(cfg, HandleRecord(cfg, w, a[0]), a[1..], b);
    }
  }

  /** The records that reach the output, in order. */
  function Survivors(cfg: WorkerConfig, records: seq<HttpResp>): seq<HttpResp>
  {
    if |records| == 0 then []
    else (if Survives(cfg, records[0]) then [records[0]] else []) + Survivors(cfg, records[1..])
  }

  /** One line per record: its URL and a newline. */
  function UrlLines(records: seq<HttpResp>): string
  {
    if |records| == 0 then "" else records[0].url + "\n" + UrlLines(records[1..])
  }

  /** The bare-URL messages sent for kept records outside the debug mode. */
  function UrlMessages(records: seq<HttpResp>): seq<Message>
  {
    if |records| == 0 then []
    else (if records[0].url != "" then [Plain(records[0].url)] else []) + UrlMessages(records[1..])
  }

  /** The survivors of a non-empty sequence: its head if it survives, then the rest's. */
  lemma SurvivorsCons(cfg: WorkerConfig, records: seq<HttpResp>)
    requires |records| > 0
    ensures Survivors(cfg, records)
      == (if Survives(cfg, records[0]) then [records[0]] else []) + Survivors(cfg, records[1..])
  {
  }

  /** After a drain `Hits` has grown by the number of surviving records and
      no other counter has moved. */
  lemma {:induction false} DrainCountsHits(cfg: WorkerConfig, w: WorkerState, records: seq<HttpResp>)
    requires Hits in w.stats
    ensures Drain(cfg, w, records).stats[Hits] == w.stats[Hits] + |Survivors(cfg, records)|
    ensures forall k | k in w.stats && k != Hits :: Drain(cfg, w, records).stats[k] == w.stats[k]
    decreases |records|
  {
    if |records| > 0 {
      var w1 := HandleRecord(cfg, w, records[0]);
      DrainCountsHits(cfg, w1, records[1..]);
      SurvivorsCons(cfg, records);
    }
  }

  /** The line a kept record contributes to the result file. */
  function UrlLine(cfg: WorkerConfig, x: HttpResp): string
  {
    if Survives(cfg, x) && cfg.saveAs then x.url + "\n" else ""
  }

  lemma UrlLinesCons(cfg: WorkerConfig, records: seq<HttpResp>)
    requires |records| > 0 && cfg.saveAs
    ensures UrlLines(Survivors(cfg, records))
      == UrlLine(cfg, records[0]) + UrlLines(Survivors(cfg, records[1..]))
  {
    var x := records[0];
    var rest := Survivors(cfg, records[1..]);
    SurvivorsCons(cfg, records);
    if Survives(cfg, x) {
      assert ([x] + rest)[1..] == rest;
      assert UrlLines([x] + rest) == x.url + "\n" + UrlLines(rest);
    } else {
      assert Survivors(cfg, records) == rest;
    }
  }

  lemma HandleRecordWritesUrl(cfg: WorkerConfig, w: WorkerState, x: HttpResp)
    requires Hits in w.stats
    ensures HandleRecord(cfg, w, x).file == w.file + UrlLine(cfg, x)
  {
  }

  /** The state after a drain's first record, described only by what the
      drain lemmas need of it. */
  lemma FirstStep(cfg: WorkerConfig, w: WorkerState, records: seq<HttpResp>) returns (w1: WorkerState)
    requires Hits in w.stats && |records| > 0
    ensures Hits in w1.stats
    ensures Drain(cfg, w, records) == Drain(cfg, w1, records[1..])
    ensures w1.file == w.file + UrlLine(cfg, records[0])
    ensures cfg.mode != Debug ==> w1.out == w.out + UrlMessage(cfg, records[0])
  {
    w1 := HandleRecord(cfg, w, records[0]);
    DrainCons(cfg, w, records);
    HandleRecordWritesUrl(cfg, w, records[0]);
    if cfg.mode != Debug {
      HandleRecordSendsUrl(cfg, w, records[0]);
    }
  }

  /** After a drain the result file has gained exactly one URL line per
      surviving record, in order, and nothing when no file is open. */
  lemma {:induction false} DrainWritesUrls(cfg: WorkerConfig, w: WorkerState, records: seq<HttpResp>)
    requires Hits in w.stats
    ensures Drain(cfg, w, records).file == w.file + (if cfg.saveAs then UrlLines(Survivors(cfg, records)) else "")
    decreases |records|
  {
    if |records| > 0 {
      var x := records[0];
      var w1 := FirstStep(cfg, w, records);
      DrainWritesUrls(cfg, w1, records[1..]);
      if cfg.saveAs {
        UrlLinesCons(cfg, records);
        AppendAssoc(w.file, UrlLine(cfg, x), UrlLines(Survivors(cfg, records[1..])));
      }
    }
  }

  /** The message a kept record contributes outside the debug mode. */
  function UrlMessage(cfg: WorkerConfig, x: HttpResp): seq<Message>
  {
    if Survives(cfg, x) && x.url != "" then [Plain(x.url)] else []
  }

  lemma UrlMessagesCons(cfg: WorkerConfig, records: seq<HttpResp>)
    requires |records| > 0
    ensures UrlMessages(Survivors(cfg, records))
      == UrlMessage(cfg, records[0]) + UrlMessages(Survivors(cfg, records[1..]))
  {
    var x := records[0];
    var rest := Survivors(cfg, records[1..]);
    SurvivorsCons(cfg, records);
    if Survives(cfg, x) {
      assert ([x] + rest)[1..] == rest;
    } else {
      assert Survivors(cfg, records) == rest;
    }
  }

  lemma DrainCons(cfg: WorkerConfig, w: WorkerState, records: seq<HttpResp>)
    requires Hits in w.stats && |records| > 0
    ensures Drain(cfg, w, records) == Drain(cfg, HandleRecord(cfg, w, records[0]), records[1..])
  {
  }

  lemma HandleRecordSendsUrl(cfg: WorkerConfig, w: WorkerState, x: HttpResp)
    requires Hits in w.stats
    requires cfg.mode != Debug
    ensures HandleRecord(cfg, w, x).out == w.out + UrlMessage(cfg, x)
  {
  }

  /** Outside the debug mode a drain sends exactly the surviving records'
      non-empty URLs, in order. */
  lemma {:induction false} DrainSendsUrls(cfg: WorkerConfig, w: WorkerState, records: seq<HttpResp>)
    requires Hits in w.stats
    requires cfg.mode != Debug
    ensures Drain(cfg, w, records).out == w.out + UrlMessages(Survivors(cfg, records))
    decreases |records|
  {
    if |records| > 0 {
      var x := records[0];
      var w1 := FirstStep(cfg, w, records);
      DrainSendsUrls(cfg, w1, records[1..]);
      UrlMessagesCons(cfg, records);
      AppendAssoc(w.out, UrlMessage(cfg, x), UrlMessages(Survivors(cfg, records[1..])));
    }
  }

  // ---------------------------------------------------------------------
  // The worker loop

  /** What one turn of the worker loop does. */
  datatype Step = Exit | Retry | Handled(state: WorkerState, queue: Queue<HttpResp>)

  /** The loop exits only when the queue is empty and production has ended. */
  predicate ShouldExit(q: Queue<HttpResp>, producing: bool)
  {
    |q.items| == 0 && !producing
  }

  /** One turn: exit, or dequeue; an empty dequeue while production goes on
      is retried after a pause without touching anything, and a record is
      handled. */
  function WorkerStep(cfg: WorkerConfig, w: WorkerState, q: Queue<HttpResp>, producing: bool): (r: Step)
    requires Hits in w.stats
    ensures r.Exit? <==> |q.items| == 0 && !producing
    ensures r.Retry? <==> |q.items| == 0 && producing
    ensures r.Handled? ==>
              && |q.items| > 0
              && r.queue.items == q.items[1..]
              && r.state == HandleRecord(cfg, w, q.items[0])
  {
    if ShouldExit(q, producing) then Exit
    else
      var (resp, rest) := Dequeue(q);
      match resp
      case None => Retry
      case Some(x) => Handled(HandleRecord(cfg, w, x), rest)
  }

  /** A worker started after production has ended: it handles every queued
      record, oldest first, and stops with the queue empty. */
  method RunWorker(cfg: WorkerConfig, w: WorkerState, q: Queue<HttpResp>)
    returns (done: WorkerState, rest: Queue<HttpResp>)
    requires Hits in w.stats
    ensures |rest.items| == 0
    ensures done == Drain(cfg, w, q.items)
  {
    done, rest := w, q;
    while true
      invariant Hits in done.stats
      invariant Drain(cfg, done, rest.items) == Drain(cfg, w, q.items)
      decreases |rest.items|
    {
      var step := WorkerStep(cfg, done, rest, false);
      match step
      case Exit => break;
      case Retry => assert false;
      case Handled(s, r) =>
        done, rest := s, r;
    }
  }
}
