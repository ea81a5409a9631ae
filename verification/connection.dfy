/**
 A model of `process` in my-redis/src/main.rs: the per-connection loop that
 reads a frame, parses it into a command, serves GET and SET from a map that
 belongs to this connection alone, and writes the response frame back.

 The socket is removed: the frames the connection delivers, already passed
 through `Command::from_frame`, are the input sequence, and the frames written
 back are the output sequence.
 */
module Connection {
  import opened Wrappers
  import opened Frames

  /** The connection's `HashMap<String, Vec<u8>>`. */
  type Db = map<string, seq<byte>>

  /** Why a connection stopped before its input was exhausted. */
  datatype Abort =
    | ParseError(reason: string)   // `Command::from_frame(frame)?` returned an error
    | Unimplemented(cmd: Command)  // `panic!("unimplemented ...")` on an unsupported command

  /** The result of serving one command: a new map and a response, or a panic. */
  datatype StepResult = Respond(db: Db, response: Frame) | Panic(cmd: Command)

  /**
   The connection's end: `Closed` when the peer closed the stream and
   `process` returned `Ok(())`; `Aborted` when a command could not be served.
   In both cases `responses` are the frames written back, in order.
   */
  datatype Outcome =
    | Closed(responses: seq<Frame>)
    | Aborted(responses: seq<Frame>, reason: Abort)

  /** A command the handler serves: GET or SET. */
  predicate Supported(cmd: Command) {
    cmd.Get? || cmd.Set?
  }

  /** An input frame the handler answers without stopping. */
  predicate Handled(e: Incoming) {
    e.Decoded? && Supported(e.cmd)
  }

  /** The abort an unanswerable input frame causes. */
  function AbortFor(e: Incoming): Abort
    requires !Handled(e)
  {
    match e
    case Malformed(m) => ParseError(m)
    case Decoded(c) => Unimplemented(c)
  }

  /** The body of the `match` on the parsed command. */
  function Step(db: Db, cmd: Command): (r: StepResult)
    ensures r.Respond? <==> Supported(cmd)
    ensures r.Panic? ==> r.cmd == cmd
    ensures cmd.Set? ==>
      && r.response == Simple("OK")
      && Lookup(r.db, cmd.key) == Some(cmd.value)
      && (forall k :: k != cmd.key ==> Lookup(r.db, k) == Lookup(db, k))
    ensures cmd.Get? ==>
      && r.db == db
      && (cmd.key in db ==> r.response == Bulk(db[cmd.key]))
      && (cmd.key !in db ==> r.response == Null)
  {
    match cmd
    case Set(k, v) => Respond(db[k := v], Simple("OK"))
    case Get(k) =>
      if k in db then Respond(db, Bulk(db[k])) else Respond(db, Null)
    case Other(_) => Panic(cmd)
  }

  /** `sent` frames written before the outcome `o` of the rest of the input. */
  function Resume(sent: seq<Frame>, o: Outcome): Outcome {
    match o
    case Closed(rs) => Closed(sent + rs)
    case Aborted(rs, why) => Aborted(sent + rs, why)
  }

  /** Writing `f` after `sent` is the same as writing `sent + [f]`. */
  lemma ResumeAppend(sent: seq<Frame>, f: Frame, o: Outcome)
    ensures Resume(sent, Resume([f], o)) == Resume(sent + [f], o)
  {
    assert sent + ([f] + o.responses) == (sent + [f]) + o.responses;
  }

  /**
   The `while let` loop, as a fold of `Step` over the input starting from the
   map `db`. Each answered frame yields exactly one response, in input order;
   the first frame that cannot be answered ends the loop without a response.
   */
  function Run(db: Db, input: seq<Incoming>): (o: Outcome)
    ensures |o.responses| <= |input|
    ensures forall i :: 0 <= i < |o.responses| ==> Handled(input[i])
    ensures o.Closed? <==> forall i :: 0 <= i < |input| ==> Handled(input[i])
    ensures o.Closed? ==> |o.responses| == |input|
    ensures o.Aborted? ==>
      && |o.responses| < |input|
      && !Handled(input[|o.responses|])
      && o.reason == AbortFor(input[|o.responses|])
    decreases |input|
  {
    if |input| == 0 then Closed([])
    else
      match input[0]
      case Malformed(m) => Aborted([], ParseError(m))
      case Decoded(cmd) =>
        match Step(db, cmd)
        case Panic(c) => Aborted([], Unimplemented(c))
        case Respond(db', f) => Resume([f], Run(db', input[1..]))
  }

  /** `process`: every connection starts from an empty map. */
  function Process(input: seq<Incoming>): Outcome {
    Run(map[], input)
  }

  /**
   `process` written as the source writes it: a loop that keeps the map and
   the frames written so far, and returns at the first unanswerable frame.
   */
  method Serve(input: seq<Incoming>) returns (o: Outcome)
    ensures o == Process(input)
  {
    var db: Db := map[];
    var sent: seq<Frame> := [];
    var i := 0;
    while i < |input|
      invariant 0 <= i <= |input|
      invariant Resume(sent, Run(db, input[i..])) == Process(input)
    {
      assert input[i..][0] == input[i] && input[i..][1..] == input[i + 1..];
      match input[i]
      case Malformed(m) =>
        return Aborted(sent, ParseError(m));
      case Decoded(cmd) =>
        var r := Step(db, cmd);
        match r
        case Panic(c) =>
          return Aborted(sent, Unimplemented(c));
        case Respond(db', f) =>
          ResumeAppend(sent, f, Run(db', input[i + 1..]));
          db := db';
          sent := sent + [f];
      i := i + 1;
    }
    assert input[i..] == [];
    return Closed(sent);
  }

  // ---------------------------------------------------------------------
  // Reference semantics: what each response should be, read off the input.
  // ---------------------------------------------------------------------

  /**
   The value `key` holds after the frames `history`, starting from `db`: the
   value of the LAST `SET key` in the history, or `db`'s binding if there is none.
   */
  function LatestSet(db: Db, history: seq<Incoming>, key: string): Option<seq<byte>>
    decreases |history|
  {
    if |history| == 0 then Lookup(db, key)
    else
      var last := history[|history| - 1];
      if SetsKey(last, key) then Some(last.cmd.value)
      else LatestSet(db, history[..|history| - 1], key)
  }

  /** `e` is a SET of `key`. */
  predicate SetsKey(e: Incoming, key: string) {
    e.Decoded? && e.cmd.Set? && e.cmd.key == key
  }

  /** The response the protocol expects to `cmd` after the frames `history`. */
  function Expected(db: Db, history: seq<Incoming>, cmd: Command): Frame
    requires Supported(cmd)
  {
    match cmd
    case Set(_, _) => Simple("OK")
    case Get(k) =>
      match LatestSet(db, history, k)
      case Some(v) => Bulk(v)
      case None => Null
  }

  /** Serving the first frame moves it from the history into the map. */
  lemma {:induction false} LatestSetShift(db: Db, input: seq<Incoming>, n: nat, key: string)
    requires 0 < n <= |input|
    requires Handled(input[0])
    ensures LatestSet(Step(db, input[0].cmd).db, input[1..n], key) == LatestSet(db, input[..n], key)
    decreases n
  {
    if n > 1 {
      assert input[1..n][..n - 2] == input[1..n - 1];
      assert input[..n][..n - 1] == input[..n - 1];
      LatestSetShift(db, input, n - 1, key);
    } else {
      assert input[..n][..0] == [];
    }
  }

  /**
   Every response `Run` writes is the one the reference semantics expects:
   OK for a SET, and for a GET the value of the last earlier SET of that key
   (or the initial map's binding), or Null if there is none.
   */
  lemma {:induction false} RunMatchesExpected(db: Db, input: seq<Incoming>)
    ensures forall i :: 0 <= i < |Run(db, input).responses| ==>
      Handled(input[i]) && Run(db, input).responses[i] == Expected(db, input[..i], input[i].cmd)
    decreases |input|
  {
    var o := Run(db, input);
    if |o.responses| > 0 {
      var cmd := input[0].cmd;
      var r := Step(db, cmd);
      var rest := input[1..];
      RunMatchesExpected(r.db, rest);
      assert o.responses == [r.response] + Run(r.db, rest).responses;
      forall i | 0 <= i < |o.responses|
        ensures o.responses[i] == Expected(db, input[..i], input[i].cmd)
      {
        if i == 0 {
          assert input[..0] == [];
        } else {
          assert rest[..i - 1] == input[1..i];
          assert rest[i - 1] == input[i];
          if input[i].cmd.Get? {
            LatestSetShift(db, input, i, input[i].cmd.key);
          }
        }
      }
    }
  }

  /** With no SET of `key` in `history`, the value read is the initial map's. */
  lemma {:induction false} LatestSetUntouched(db: Db, history: seq<Incoming>, key: string)
    requires forall j :: 0 <= j < |history| ==> !SetsKey(history[j], key)
    ensures LatestSet(db, history, key) == Lookup(db, key)
    decreases |history|
  {
    if |history| > 0 {
      LatestSetUntouched(db, history[..|history| - 1], key);
    }
  }

  /** The SET at position `j`, with no later SET of the same key, decides the value read. */
  lemma {:induction false} LatestSetIsLastWrite(db: Db, history: seq<Incoming>, j: nat)
    requires j < |history| && history[j].Decoded? && history[j].cmd.Set?
    requires forall m :: j < m < |history| ==> !SetsKey(history[m], history[j].cmd.key)
    ensures LatestSet(db, history, history[j].cmd.key) == Some(history[j].cmd.value)
    decreases |history|
  {
    if j < |history| - 1 {
      LatestSetIsLastWrite(db, history[..|history| - 1], j);
    }
  }

  /**
   Each connection starts from an empty map: a GET that no earlier SET of its
   key precedes on the same connection is answered with Null.
   */
  lemma GetBeforeSetIsNull(input: seq<Incoming>, i: nat)
    requires i < |Process(input).responses|
    requires input[i] == Decoded(Get(input[i].cmd.key))
    requires forall j :: 0 <= j < i ==> !SetsKey(input[j], input[i].cmd.key)
    ensures Process(input).responses[i] == Null
  {
    RunMatchesExpected(map[], input);
    LatestSetUntouched(map[], input[..i], input[i].cmd.key);
  }

  /**
   Last write wins: a GET answered after a SET of the same key, with no other
   SET of that key in between, returns the value of that SET.
   */
  lemma GetSeesLastSet(input: seq<Incoming>, j: nat, i: nat)
    requires j < i < |Process(input).responses|
    requires input[j].Decoded? && input[j].cmd.Set?
    requires input[i] == Decoded(Get(input[j].cmd.key))
    requires forall m :: j < m < i ==> !SetsKey(input[m], input[j].cmd.key)
    ensures Process(input).responses[i] == Bulk(input[j].cmd.value)
  {
    RunMatchesExpected(map[], input);
    LatestSetIsLastWrite(map[], input[..i], j);
  }

  /** The scenario SET foo bar; GET foo; GET missing on one connection. */
  lemma SetGetScenario()
    ensures Process([Decoded(Set("foo", [98, 97, 114])), Decoded(Get("foo")), Decoded(Get("missing"))])
         == Closed([Simple("OK"), Bulk([98, 97, 114]), Null])
  {
  }

  /** An unsupported command aborts: nothing is written for it or after it. */
  lemma UnsupportedScenario()
    ensures Process([Decoded(Set("k", [1])), Decoded(Other("publish")), Decoded(Get("k"))])
         == Aborted([Simple("OK")], Unimplemented(Other("publish")))
  {
  }
}
