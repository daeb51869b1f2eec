// One connection of the FastCGI fixture: requests are received, recorded and answered until the client does not ask to
// keep the connection (scripts/smoke_php_transport.py, backend.Handler.handle).
module FastCgiServer {
  import opened Text
  import opened Streams
  import opened NameValue
  import opened FastCgi

  const MAX_TRAILING: nat := 65536

  // What the server records of a request: its parameters and its body.
  datatype Seen = Seen(params: map<string, string>, body: Bytes)

  // How the connection ends: drained and closed, cut off by the client, stopped before an answer, or in an error.
  datatype End = Finished | CutOff | Stopped | Failed

  datatype Log = Log(seen: seq<Seen>, end: End)

  // ---- the connection as a function of its bytes -------------------------------------------------------------

  ghost function ParamsOf(decode: Decoder, data: Bytes): Option<map<string, string>>
  {
    var r := ReadAll(data, 0);
    if r.Some? && AllDecode(decode, r.value) then Some(LastValues(decode, r.value)) else None
  }

  function Prepend(s: Seen, log: Log): Log
  {
    log.(seen := [s] + log.seen)
  }

  // `answers` is how many requests can be answered before the server is stopped or the connection fails.
  ghost function Serve(decode: Decoder, data: Bytes, answers: nat): Log
    decreases answers
  {
    match Handle(data, START, MAX_RECORDS)
    case Closed => Log([], CutOff)
    case Invalid => Log([], Failed)
    case Request(params, body, keepAlive, rest) =>
      var values := ParamsOf(decode, params);
      if values.None? then Log([], Failed)
      else
        Prepend(Seen(values.value, body),
                if answers == 0 then Log([], Stopped)
                else if keepAlive then Serve(decode, rest, answers - 1)
                else Log([], if |rest| <= MAX_TRAILING then Finished else Failed))
  }

  // Reading the rest of the connection, within a bound.
  method Drain(stream: Reader) returns (ok: bool)
    modifies stream
    ensures ok <==> |old(stream.rest)| <= MAX_TRAILING
  {
    var drained := 0;
    while true
      invariant drained <= MAX_TRAILING && |old(stream.rest)| == drained + |stream.rest|
      decreases |stream.rest|
    {
      var chunk := stream.Read(4096);
      if chunk.None? || chunk.value == [] { return true; }
      drained := drained + |chunk.value|;
      if drained > MAX_TRAILING { return false; }
    }
  }

  lemma ParamsAre(decode: Decoder, data: Bytes, r: Option<map<string, string>>)
    requires r.Some? ==> Denotes(decode, data, r.value)
    requires forall values :: Denotes(decode, data, values) ==> r == Some(values)
    ensures r == ParamsOf(decode, data)
  {
    hide ReadAll, LastValues, Denotes, AllDecode;
    var p := ParamsOf(decode, data);
    if p.Some? {
      DenotesRead(decode, data, p.value);
    }
    if r.Some? {
      DenotesRead(decode, data, r.value);
    }
  }

  // handle
  method HandleConnection(decode: Decoder, stream: Reader, answers: nat) returns (log: Log)
    modifies stream
    ensures log == Serve(decode, old(stream.rest), answers)
  {
    hide Handle, ParamsOf, Denotes;
    var seen, left := [], answers;
    while true
      invariant Serve(decode, old(stream.rest), answers) ==
                (var more := Serve(decode, stream.rest, left); more.(seen := seen + more.seen))
      decreases left
    {
      ghost var before := stream.rest;
      var request := ReceiveRequest(stream);
      if request.Closed? { return Log(seen + [], CutOff); }
      if request.Invalid? { return Log(seen + [], Failed); }
      var values := Parameters(decode, request.params);
      ParamsAre(decode, request.params, values);
      if values.None? { return Log(seen + [], Failed); }
      var s := Seen(values.value, request.body);
      if left == 0 { return Log(seen + ([s] + []), Stopped); }
      if !request.keepAlive {
        var ok := Drain(stream);
        return Log(seen + ([s] + []), if ok then Finished else Failed);
      }
      Regrouped(seen, s, Serve(decode, stream.rest, left - 1).seen);
      seen, left := seen + [s], left - 1;
    }
  }

  lemma Regrouped(seen: seq<Seen>, s: Seen, more: seq<Seen>)
    ensures seen + ([s] + more) == seen + [s] + more
  {
  }

  // ---- what a client means -----------------------------------------------------------------------------------

  // The records of one request, which say what the server is to record of it.
  ghost predicate Asks(decode: Decoder, rs: seq<Record>, s: Seen)
  {
    WholeRequest(rs) && Denotes(decode, StreamOf(rs, PARAMS), s.params) && StreamOf(rs, STDIN) == s.body
  }

  ghost predicate AllAsk(decode: Decoder, qs: seq<seq<Record>>, seen: seq<Seen>)
  {
    |qs| == |seen| && forall i | 0 <= i < |qs| :: Asks(decode, qs[i], seen[i])
  }

  ghost predicate AllKeep(qs: seq<seq<Record>>)
  {
    forall i | 0 <= i < |qs| :: KeepAlive(qs[i])
  }

  ghost predicate AllWhole(qs: seq<seq<Record>>)
  {
    forall i | 0 <= i < |qs| :: AllOnWire(qs[i])
  }

  // The requests one after another.
  ghost function EncodeAll(qs: seq<seq<Record>>): Bytes
    requires AllWhole(qs)
  {
    if qs == [] then [] else EncodeRecords(qs[0]) + EncodeAll(qs[1..])
  }

  lemma AskedIsWhole(decode: Decoder, qs: seq<seq<Record>>, seen: seq<Seen>)
    requires AllAsk(decode, qs, seen)
    ensures AllWhole(qs)
  {
    forall i | 0 <= i < |qs|
      ensures AllOnWire(qs[i])
    {
      assert Asks(decode, qs[i], seen[i]);
    }
  }

  // One request, and what the connection goes on with.
  lemma ServeOne(decode: Decoder, rs: seq<Record>, s: Seen, rest: Bytes, answers: nat)
    requires Asks(decode, rs, s)
    ensures Serve(decode, EncodeRecords(rs) + rest, answers) ==
            Prepend(s, if answers == 0 then Log([], Stopped)
                       else if KeepAlive(rs) then Serve(decode, rest, answers - 1)
                       else Log([], if |rest| <= MAX_TRAILING then Finished else Failed))
  {
    hide Handle, Ends, Framed, StreamOf, KeepAlive, EncodeRecords, Denotes, ReadAll, LastValues, AllDecode;
    var params, body, keep := StreamOf(rs, PARAMS), StreamOf(rs, STDIN), KeepAlive(rs);
    assert Carries(rs, params, body, keep);
    DemuxExact(EncodeRecords(rs) + rest, params, body, keep, rest);
    DenotesRead(decode, params, s.params);
  }

  // Requests that all keep the connection are received one after another, exactly, whatever follows them.
  lemma {:induction false} Pipelined(decode: Decoder, qs: seq<seq<Record>>, seen: seq<Seen>, rest: Bytes, answers: nat)
    requires AllAsk(decode, qs, seen) && AllKeep(qs) && |qs| <= answers
    ensures AllWhole(qs)
    ensures Serve(decode, EncodeAll(qs) + rest, answers) ==
            (var more := Serve(decode, rest, answers - |qs|); more.(seen := seen + more.seen))
    decreases |qs|
  {
    hide Serve, Asks, KeepAlive, EncodeRecords;
    AskedIsWhole(decode, qs, seen);
    if qs == [] {
      var more := Serve(decode, rest, answers);
      assert EncodeAll(qs) + rest == rest && seen + more.seen == more.seen;
    } else {
      var later := EncodeAll(qs[1..]) + rest;
      assert EncodeAll(qs) + rest == EncodeRecords(qs[0]) + later;
      assert Asks(decode, qs[0], seen[0]) && KeepAlive(qs[0]);
      Later(decode, qs, seen);
      ServeOne(decode, qs[0], seen[0], later, answers);
      Pipelined(decode, qs[1..], seen[1..], rest, answers - 1);
      var more := Serve(decode, rest, answers - |qs|);
      assert [seen[0]] + (seen[1..] + more.seen) == seen + more.seen;
    }
  }

  lemma Later(decode: Decoder, qs: seq<seq<Record>>, seen: seq<Seen>)
    requires AllAsk(decode, qs, seen) && qs != []
    ensures AllAsk(decode, qs[1..], seen[1..]) && (AllKeep(qs) ==> AllKeep(qs[1..]))
  {
    hide Asks, KeepAlive;
  }

  // A whole conversation: the last request, and no other, does not ask to keep the connection, and little follows it.
  ghost predicate Conversation(decode: Decoder, data: Bytes, qs: seq<seq<Record>>, seen: seq<Seen>, tail: Bytes)
  {
    && AllAsk(decode, qs, seen) && qs != [] && AllKeep(qs[..|qs| - 1]) && !KeepAlive(qs[|qs| - 1])
    && AllWhole(qs) && data == EncodeAll(qs) + tail && |tail| <= MAX_TRAILING
  }

  lemma {:induction false} ConversationServed(decode: Decoder, data: Bytes, qs: seq<seq<Record>>, seen: seq<Seen>,
                                              tail: Bytes, answers: nat)
    requires Conversation(decode, data, qs, seen, tail) && |qs| <= answers
    ensures Serve(decode, data, answers) == Log(seen, Finished)
    decreases |qs|
  {
    hide Serve, Asks, KeepAlive, EncodeRecords;
    assert Asks(decode, qs[0], seen[0]);
    var later := EncodeAll(qs[1..]) + tail;
    assert data == EncodeRecords(qs[0]) + later;
    ServeOne(decode, qs[0], seen[0], later, answers);
    if |qs| == 1 {
      assert qs[1..] == [] && later == tail && seen == [seen[0]];
    } else {
      assert KeepAlive(qs[..|qs| - 1][0]);
      Later(decode, qs, seen);
      ConversationRest(decode, qs, seen, tail);
      ConversationServed(decode, later, qs[1..], seen[1..], tail, answers - 1);
      assert [seen[0]] + seen[1..] == seen;
    }
  }

  lemma ConversationRest(decode: Decoder, qs: seq<seq<Record>>, seen: seq<Seen>, tail: Bytes)
    requires AllWhole(qs) && Conversation(decode, EncodeAll(qs) + tail, qs, seen, tail) && |qs| > 1
    ensures Conversation(decode, EncodeAll(qs[1..]) + tail, qs[1..], seen[1..], tail)
  {
    hide Asks, KeepAlive, EncodeRecords;
    var others := qs[1..];
    var front, most := qs[..|qs| - 1], others[..|others| - 1];
    forall i | 0 <= i < |most|
      ensures KeepAlive(most[i])
    {
      assert most[i] == front[i + 1];
    }
    Later(decode, qs, seen);
  }

  // A request that was received was asked.
  lemma FirstAsked(decode: Decoder, data: Bytes, answers: nat) returns (rs: seq<Record>, s: Seen, rest: Bytes)
    requires Serve(decode, data, answers).seen != []
    ensures Asks(decode, rs, s) && data == EncodeRecords(rs) + rest && Serve(decode, data, answers).seen[0] == s
  {
    hide Handle, Ends, Framed, StreamOf, KeepAlive, EncodeRecords, Denotes, ReadAll, LastValues, AllDecode;
    var r := Handle(data, START, MAX_RECORDS);
    DemuxExact(data, r.params, r.body, r.keepAlive, r.rest);
    rs :| Carries(rs, r.params, r.body, r.keepAlive) && data == EncodeRecords(rs) + r.rest;
    s, rest := Serve(decode, data, answers).seen[0], r.rest;
    DenotesRead(decode, r.params, s.params);
  }

  lemma {:induction false} ServedConversation(decode: Decoder, data: Bytes, answers: nat)
    returns (qs: seq<seq<Record>>, tail: Bytes)
    requires Serve(decode, data, answers).end == Finished
    ensures Conversation(decode, data, qs, Serve(decode, data, answers).seen, tail) && |qs| <= answers
    decreases answers
  {
    hide Handle, Asks, KeepAlive, EncodeRecords, ParamsOf;
    var log := Serve(decode, data, answers);
    var rs, s, rest := FirstAsked(decode, data, answers);
    ServeOne(decode, rs, s, rest, answers);
    if KeepAlive(rs) {
      var others;
      others, tail := ServedConversation(decode, rest, answers - 1);
      qs := [rs] + others;
      Joined(decode, rs, s, others, Serve(decode, rest, answers - 1).seen, rest, tail);
    } else {
      qs, tail := [rs], rest;
      assert log.seen == [s] && qs[1..] == [] && qs[..0] == [];
      Alone(decode, rs, s, rest);
    }
  }

  lemma Alone(decode: Decoder, rs: seq<Record>, s: Seen, tail: Bytes)
    requires Asks(decode, rs, s) && !KeepAlive(rs) && |tail| <= MAX_TRAILING
    ensures Conversation(decode, EncodeRecords(rs) + tail, [rs], [s], tail)
  {
    hide KeepAlive, EncodeRecords, Denotes, StreamOf;
    var qs := [rs];
    assert qs[1..] == [] && qs[..0] == [] && AllOnWire(rs);
    assert EncodeAll([]) == [] && EncodeAll(qs) == EncodeRecords(rs) + [];
    assert EncodeAll(qs) + tail == EncodeRecords(rs) + tail;
  }

  lemma Joined(decode: Decoder, rs: seq<Record>, s: Seen, others: seq<seq<Record>>, seen: seq<Seen>, rest: Bytes,
               tail: Bytes)
    requires Asks(decode, rs, s) && KeepAlive(rs) && Conversation(decode, rest, others, seen, tail)
    ensures Conversation(decode, EncodeRecords(rs) + rest, [rs] + others, [s] + seen, tail)
  {
    hide KeepAlive, EncodeRecords, EncodeAll, Asks, AllKeep, AllAsk, AllWhole;
    var qs, all := [rs] + others, [s] + seen;
    AskedFirst(decode, rs, s, others, seen);
    AskedIsWhole(decode, qs, all);
    KeptFirst(rs, others);
    AskedOnWire(decode, rs, s);
    EncodedFirst(rs, others, tail);
    assert qs[|qs| - 1] == others[|others| - 1];
  }

  lemma AskedFirst(decode: Decoder, rs: seq<Record>, s: Seen, others: seq<seq<Record>>, seen: seq<Seen>)
    requires Asks(decode, rs, s) && AllAsk(decode, others, seen)
    ensures AllAsk(decode, [rs] + others, [s] + seen)
  {
    hide Asks;
  }

  lemma AskedOnWire(decode: Decoder, rs: seq<Record>, s: Seen)
    requires Asks(decode, rs, s)
    ensures AllOnWire(rs)
  {
  }

  lemma KeptFirst(rs: seq<Record>, others: seq<seq<Record>>)
    requires KeepAlive(rs) && others != [] && AllKeep(others[..|others| - 1])
    ensures var qs := [rs] + others; AllKeep(qs[..|qs| - 1])
  {
    hide KeepAlive;
    AllButLast(rs, others);
  }

  lemma AllButLast<T>(first: T, others: seq<T>)
    requires others != []
    ensures ([first] + others)[..|others|] == [first] + others[..|others| - 1]
  {
  }

  lemma EncodedFirst(rs: seq<Record>, others: seq<seq<Record>>, tail: Bytes)
    requires AllWhole([rs] + others) && AllWhole(others) && AllOnWire(rs)
    ensures EncodeAll([rs] + others) + tail == EncodeRecords(rs) + (EncodeAll(others) + tail)
  {
    hide EncodeRecords, AllOnWire;
    assert ([rs] + others)[1..] == others;
  }

  // The connection is served to its end with exactly these requests recorded if and only if its bytes are a
  // conversation of just these requests, in this order.
  lemma ServedExactly(decode: Decoder, data: Bytes, answers: nat, seen: seq<Seen>)
    ensures Serve(decode, data, answers) == Log(seen, Finished) <==>
              exists qs, tail :: Conversation(decode, data, qs, seen, tail) && |qs| <= answers
  {
    hide Serve, Conversation;
    if Serve(decode, data, answers) == Log(seen, Finished) {
      var qs, tail := ServedConversation(decode, data, answers);
      assert Conversation(decode, data, qs, seen, tail) && |qs| <= answers;
    }
    if qs, tail :| Conversation(decode, data, qs, seen, tail) && |qs| <= answers {
      ConversationServed(decode, data, qs, seen, tail, answers);
    }
  }

  // ---- every end ---------------------------------------------------------------------------------------------

  // Requests that all keep the connection, and what follows them.
  ghost predicate Preface(decode: Decoder, data: Bytes, qs: seq<seq<Record>>, seen: seq<Seen>, tail: Bytes)
  {
    AllAsk(decode, qs, seen) && AllKeep(qs) && AllWhole(qs) && data == EncodeAll(qs) + tail
  }

  // The next turn ends the connection.
  ghost predicate LastTurn(decode: Decoder, tail: Bytes, left: nat)
  {
    var r := Handle(tail, START, MAX_RECORDS);
    r.Request? && ParamsOf(decode, r.params).Some? ==> left == 0 || !r.keepAlive
  }

  function After(seen: seq<Seen>, log: Log): Log
  {
    log.(seen := seen + log.seen)
  }

  lemma {:induction false} ServeSplits(decode: Decoder, data: Bytes, answers: nat)
    returns (qs: seq<seq<Record>>, seen: seq<Seen>, tail: Bytes)
    ensures Preface(decode, data, qs, seen, tail) && |qs| <= answers && LastTurn(decode, tail, answers - |qs|)
    ensures Serve(decode, data, answers) == After(seen, Serve(decode, tail, answers - |qs|))
    decreases answers
  {
    hide Handle, Asks, KeepAlive, EncodeRecords, ParamsOf;
    if LastTurn(decode, data, answers) {
      qs, seen, tail := [], [], data;
      assert data == EncodeAll([]) + data;
    } else {
      var rs, s, rest := FirstAsked(decode, data, answers);
      ReceivedKeeps(decode, data, rs, s, rest);
      ServeOne(decode, rs, s, rest, answers);
      var others, later;
      others, later, tail := ServeSplits(decode, rest, answers - 1);
      qs, seen := [rs] + others, [s] + later;
      PrefaceFirst(decode, rs, s, others, later, rest, tail);
      Regrouped([], s, later);
      var more := Serve(decode, tail, answers - |qs|);
      assert [s] + (later + more.seen) == seen + more.seen;
    }
  }

  lemma ReceivedKeeps(decode: Decoder, data: Bytes, rs: seq<Record>, s: Seen, rest: Bytes)
    requires Asks(decode, rs, s) && data == EncodeRecords(rs) + rest
    ensures Handle(data, START, MAX_RECORDS) ==
            Request(StreamOf(rs, PARAMS), StreamOf(rs, STDIN), KeepAlive(rs), rest)
  {
    hide Handle, Ends, Framed, StreamOf, KeepAlive, EncodeRecords, Denotes;
    assert Carries(rs, StreamOf(rs, PARAMS), StreamOf(rs, STDIN), KeepAlive(rs));
    DemuxExact(data, StreamOf(rs, PARAMS), StreamOf(rs, STDIN), KeepAlive(rs), rest);
  }

  lemma PrefaceFirst(decode: Decoder, rs: seq<Record>, s: Seen, others: seq<seq<Record>>, seen: seq<Seen>, rest: Bytes,
                     tail: Bytes)
    requires Asks(decode, rs, s) && KeepAlive(rs) && Preface(decode, rest, others, seen, tail)
    ensures AllOnWire(rs) && Preface(decode, EncodeRecords(rs) + rest, [rs] + others, [s] + seen, tail)
  {
    hide KeepAlive, EncodeRecords, EncodeAll, Asks, AllAsk, AllWhole;
    var qs, all := [rs] + others, [s] + seen;
    AskedFirst(decode, rs, s, others, seen);
    AskedIsWhole(decode, qs, all);
    AskedOnWire(decode, rs, s);
    EncodedFirst(rs, others, tail);
  }

  lemma LastTurnEnds(decode: Decoder, tail: Bytes, left: nat)
    requires LastTurn(decode, tail, left)
    ensures var r := Handle(tail, START, MAX_RECORDS);
            Serve(decode, tail, left) ==
            match r
            case Closed => Log([], CutOff)
            case Invalid => Log([], Failed)
            case Request(params, body, keepAlive, rest) =>
              match ParamsOf(decode, params)
              case None => Log([], Failed)
              case Some(values) =>
                Log([Seen(values, body)],
                    if left == 0 then Stopped else if |rest| <= MAX_TRAILING then Finished else Failed)
  {
    hide Handle, ParamsOf;
  }

  // A connection is cut off by its client exactly when after requests that keep it comes one that stops inside a
  // record, or before one, and does not end.
  ghost predicate LeftOff(decode: Decoder, data: Bytes, answers: nat, seen: seq<Seen>, qs: seq<seq<Record>>,
                          tail: Bytes, rs: seq<Record>, frag: Bytes)
  {
    Preface(decode, data, qs, seen, tail) && |qs| <= answers && BreaksOff(tail, rs, frag)
  }

  lemma CutOffExactly(decode: Decoder, data: Bytes, answers: nat, seen: seq<Seen>)
    ensures Serve(decode, data, answers) == Log(seen, CutOff) <==>
              exists qs, tail, rs, frag :: LeftOff(decode, data, answers, seen, qs, tail, rs, frag)
  {
    hide Serve, Preface, BreaksOff, LastTurn, Handle, ParamsOf;
    var qs, most, tail := ServeSplits(decode, data, answers);
    LastTurnEnds(decode, tail, answers - |qs|);
    if Serve(decode, data, answers) == Log(seen, CutOff) {
      ClosedExactly(tail);
      var rs, frag :| BreaksOff(tail, rs, frag);
      AfterNothing(most, CutOff);
      assert LeftOff(decode, data, answers, seen, qs, tail, rs, frag);
    }
    if qs, tail, rs, frag :| LeftOff(decode, data, answers, seen, qs, tail, rs, frag) {
      ClosedExactly(tail);
      ServeAfter(decode, data, qs, seen, tail, answers);
      NothingLast(decode, tail, answers - |qs|);
      LastTurnEnds(decode, tail, answers - |qs|);
      AfterNothing(seen, CutOff);
    }
  }

  lemma NothingLast(decode: Decoder, tail: Bytes, left: nat)
    requires !Handle(tail, START, MAX_RECORDS).Request?
    ensures LastTurn(decode, tail, left)
  {
    hide Handle, ParamsOf;
  }

  lemma AfterNothing(seen: seq<Seen>, end: End)
    ensures After(seen, Log([], end)) == Log(seen, end)
  {
    assert seen + [] == seen;
  }

  lemma ServeAfter(decode: Decoder, data: Bytes, qs: seq<seq<Record>>, seen: seq<Seen>, tail: Bytes, answers: nat)
    requires Preface(decode, data, qs, seen, tail) && |qs| <= answers
    ensures Serve(decode, data, answers) == After(seen, Serve(decode, tail, answers - |qs|))
  {
    hide Serve, AllAsk, AllKeep, EncodeAll;
    Pipelined(decode, qs, seen, tail, answers);
  }

  // It ends in an error exactly when after requests that keep it comes a request that is badly framed or over a limit,
  // one whose parameters cannot be read, or one that does not keep it and is followed by more than 65536 bytes.
  ghost predicate BadRecords(decode: Decoder, data: Bytes, answers: nat, seen: seq<Seen>, qs: seq<seq<Record>>,
                             tail: Bytes, rs: seq<Record>, frag: Bytes)
  {
    Preface(decode, data, qs, seen, tail) && |qs| <= answers && Violates(tail, rs, frag)
  }

  ghost predicate BadParams(decode: Decoder, data: Bytes, answers: nat, seen: seq<Seen>, qs: seq<seq<Record>>,
                            tail: Bytes, rs: seq<Record>, rest: Bytes)
  {
    && Preface(decode, data, qs, seen, tail) && |qs| <= answers
    && WholeRequest(rs) && tail == EncodeRecords(rs) + rest
    && forall values :: !Denotes(decode, StreamOf(rs, PARAMS), values)
  }

  ghost predicate TooMuch(decode: Decoder, data: Bytes, answers: nat, seen: seq<Seen>, qs: seq<seq<Record>>,
                          tail: Bytes, rs: seq<Record>, rest: Bytes)
  {
    && seen != [] && Preface(decode, data, qs, seen[..|seen| - 1], tail) && |qs| < answers
    && Asks(decode, rs, seen[|seen| - 1]) && !KeepAlive(rs) && tail == EncodeRecords(rs) + rest && |rest| > 65536
  }

  lemma FailedExactly(decode: Decoder, data: Bytes, answers: nat, seen: seq<Seen>)
    ensures Serve(decode, data, answers) == Log(seen, Failed) <==>
              || (exists qs, tail, rs, frag :: BadRecords(decode, data, answers, seen, qs, tail, rs, frag))
              || (exists qs, tail, rs, rest :: BadParams(decode, data, answers, seen, qs, tail, rs, rest))
              || (exists qs, tail, rs, rest :: TooMuch(decode, data, answers, seen, qs, tail, rs, rest))
  {
    hide Serve, BadRecords, BadParams, TooMuch;
    if Serve(decode, data, answers) == Log(seen, Failed) {
      FailedIs(decode, data, answers, seen);
    }
    if qs, tail, rs, frag :| BadRecords(decode, data, answers, seen, qs, tail, rs, frag) {
      BadRecordsFail(decode, data, answers, seen, qs, tail, rs, frag);
    }
    if qs, tail, rs, rest :| BadParams(decode, data, answers, seen, qs, tail, rs, rest) {
      BadParamsFail(decode, data, answers, seen, qs, tail, rs, rest);
    }
    if qs, tail, rs, rest :| TooMuch(decode, data, answers, seen, qs, tail, rs, rest) {
      TooMuchFails(decode, data, answers, seen, qs, tail, rs, rest);
    }
  }

  lemma FailedIs(decode: Decoder, data: Bytes, answers: nat, seen: seq<Seen>)
    requires Serve(decode, data, answers) == Log(seen, Failed)
    ensures || (exists qs, tail, rs, frag :: BadRecords(decode, data, answers, seen, qs, tail, rs, frag))
            || (exists qs, tail, rs, rest :: BadParams(decode, data, answers, seen, qs, tail, rs, rest))
            || (exists qs, tail, rs, rest :: TooMuch(decode, data, answers, seen, qs, tail, rs, rest))
  {
    hide Serve, Preface, Violates, LastTurn, Handle, ParamsOf, Asks, WholeRequest, EncodeRecords, StreamOf, KeepAlive,
         Denotes;
    var qs, most, tail := ServeSplits(decode, data, answers);
    LastTurnEnds(decode, tail, answers - |qs|);
    var r := Handle(tail, START, MAX_RECORDS);
    AfterNothing(most, Failed);
    if r.Invalid? {
      InvalidExactly(tail);
      var rs, frag :| Violates(tail, rs, frag);
      assert BadRecords(decode, data, answers, seen, qs, tail, rs, frag);
    } else {
      var rs := RequestFound(tail, r);
      if ParamsOf(decode, r.params).None? {
        NotDenoted(decode, r.params);
        assert BadParams(decode, data, answers, seen, qs, tail, rs, r.rest);
      } else {
        var s := Seen(ParamsOf(decode, r.params).value, r.body);
        assert seen == most + [s] && seen[..|seen| - 1] == most;
        Denoted(decode, rs, s);
        LastTurnCloses(decode, tail, answers - |qs|);
        assert TooMuch(decode, data, answers, seen, qs, tail, rs, r.rest);
      }
    }
  }

  lemma RequestFound(tail: Bytes, r: Outcome) returns (rs: seq<Record>)
    requires r == Handle(tail, START, MAX_RECORDS) && r.Request?
    ensures WholeRequest(rs) && AllOnWire(rs) && tail == EncodeRecords(rs) + r.rest
    ensures r == Request(StreamOf(rs, PARAMS), StreamOf(rs, STDIN), KeepAlive(rs), r.rest)
  {
    hide Handle, Ends, Framed, StreamOf, KeepAlive, EncodeRecords;
    DemuxExact(tail, r.params, r.body, r.keepAlive, r.rest);
    rs :| Carries(rs, r.params, r.body, r.keepAlive) && tail == EncodeRecords(rs) + r.rest;
  }

  lemma NotDenoted(decode: Decoder, params: Bytes)
    ensures ParamsOf(decode, params).None? <==> forall values :: !Denotes(decode, params, values)
  {
    hide ReadAll, LastValues, Denotes, AllDecode;
    forall values
      ensures Denotes(decode, params, values) <==> ParamsOf(decode, params) == Some(values)
    {
      DenotesRead(decode, params, values);
    }
    assert ParamsOf(decode, params).Some? ==> Denotes(decode, params, ParamsOf(decode, params).value);
  }

  lemma Denoted(decode: Decoder, rs: seq<Record>, s: Seen)
    requires WholeRequest(rs)
    ensures Asks(decode, rs, s) <==>
              ParamsOf(decode, StreamOf(rs, PARAMS)) == Some(s.params) && StreamOf(rs, STDIN) == s.body
  {
    hide ReadAll, LastValues, Denotes, AllDecode, WholeRequest, StreamOf;
    DenotesRead(decode, StreamOf(rs, PARAMS), s.params);
  }

  lemma LastTurnCloses(decode: Decoder, tail: Bytes, left: nat)
    requires LastTurn(decode, tail, left) && Handle(tail, START, MAX_RECORDS).Request? && left > 0
    requires ParamsOf(decode, Handle(tail, START, MAX_RECORDS).params).Some?
    ensures !Handle(tail, START, MAX_RECORDS).keepAlive
  {
    hide Handle, ParamsOf;
  }

  lemma BadRecordsFail(decode: Decoder, data: Bytes, answers: nat, seen: seq<Seen>, qs: seq<seq<Record>>, tail: Bytes,
                       rs: seq<Record>, frag: Bytes)
    requires BadRecords(decode, data, answers, seen, qs, tail, rs, frag)
    ensures Serve(decode, data, answers) == Log(seen, Failed)
  {
    hide Serve, Preface, Violates, LastTurn, Handle, ParamsOf;
    InvalidExactly(tail);
    NothingLast(decode, tail, answers - |qs|);
    LastTurnEnds(decode, tail, answers - |qs|);
    ServeAfter(decode, data, qs, seen, tail, answers);
    AfterNothing(seen, Failed);
  }

  lemma BadParamsFail(decode: Decoder, data: Bytes, answers: nat, seen: seq<Seen>, qs: seq<seq<Record>>, tail: Bytes,
                      rs: seq<Record>, rest: Bytes)
    requires BadParams(decode, data, answers, seen, qs, tail, rs, rest)
    ensures Serve(decode, data, answers) == Log(seen, Failed)
  {
    hide Serve, Preface, Handle, ParamsOf, WholeRequest, StreamOf, KeepAlive, EncodeRecords, Denotes;
    WholeOnWire(rs, 0);
    assert rs[0..] == rs;
    RequestIs(tail, rs, rest);
    NotDenoted(decode, StreamOf(rs, PARAMS));
    LastTurnEnds(decode, tail, answers - |qs|);
    ServeAfter(decode, data, qs, seen, tail, answers);
    AfterNothing(seen, Failed);
  }

  lemma RequestIs(tail: Bytes, rs: seq<Record>, rest: Bytes)
    requires WholeRequest(rs) && AllOnWire(rs) && tail == EncodeRecords(rs) + rest
    ensures Handle(tail, START, MAX_RECORDS) ==
            Request(StreamOf(rs, PARAMS), StreamOf(rs, STDIN), KeepAlive(rs), rest)
  {
    hide Handle, Ends, Framed, StreamOf, KeepAlive, EncodeRecords, WholeRequest;
    assert Carries(rs, StreamOf(rs, PARAMS), StreamOf(rs, STDIN), KeepAlive(rs));
    DemuxExact(tail, StreamOf(rs, PARAMS), StreamOf(rs, STDIN), KeepAlive(rs), rest);
  }

  lemma TooMuchFails(decode: Decoder, data: Bytes, answers: nat, seen: seq<Seen>, qs: seq<seq<Record>>, tail: Bytes,
                     rs: seq<Record>, rest: Bytes)
    requires TooMuch(decode, data, answers, seen, qs, tail, rs, rest)
    ensures Serve(decode, data, answers) == Log(seen, Failed)
  {
    hide Serve, Preface, Handle, ParamsOf, Asks, KeepAlive, EncodeRecords;
    var most, s := seen[..|seen| - 1], seen[|seen| - 1];
    ServeOne(decode, rs, s, rest, answers - |qs|);
    ServeAfter(decode, data, qs, most, tail, answers);
    assert most + ([s] + []) == seen;
  }

  // It is stopped before an answer exactly when it holds one request more than are answered.
  ghost predicate OneTooMany(decode: Decoder, data: Bytes, answers: nat, seen: seq<Seen>, qs: seq<seq<Record>>,
                             tail: Bytes, rs: seq<Record>, rest: Bytes)
  {
    && seen != [] && Preface(decode, data, qs, seen[..|seen| - 1], tail) && |qs| == answers
    && Asks(decode, rs, seen[|seen| - 1]) && tail == EncodeRecords(rs) + rest
  }

  lemma StoppedExactly(decode: Decoder, data: Bytes, answers: nat, seen: seq<Seen>)
    ensures Serve(decode, data, answers) == Log(seen, Stopped) <==>
              exists qs, tail, rs, rest :: OneTooMany(decode, data, answers, seen, qs, tail, rs, rest)
  {
    hide Serve, Preface, LastTurn, Handle, ParamsOf, Asks, WholeRequest, EncodeRecords, StreamOf, KeepAlive;
    if Serve(decode, data, answers) == Log(seen, Stopped) {
      var qs, most, tail := ServeSplits(decode, data, answers);
      LastTurnEnds(decode, tail, answers - |qs|);
      var r := Handle(tail, START, MAX_RECORDS);
      var rs := RequestFound(tail, r);
      var s := Seen(ParamsOf(decode, r.params).value, r.body);
      assert seen == most + [s] && seen[..|seen| - 1] == most;
      Denoted(decode, rs, s);
      assert OneTooMany(decode, data, answers, seen, qs, tail, rs, r.rest);
    }
    if qs, tail, rs, rest :| OneTooMany(decode, data, answers, seen, qs, tail, rs, rest) {
      var most, s := seen[..|seen| - 1], seen[|seen| - 1];
      ServeOne(decode, rs, s, rest, 0);
      ServeAfter(decode, data, qs, most, tail, answers);
      assert most + ([s] + []) == seen;
    }
  }
}
