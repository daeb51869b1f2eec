// The FastCGI record demultiplexer (sections 3.3, 5.2 and 5.3 of the FastCGI Specification;
// scripts/smoke_php_transport.py, the record loop of backend.Handler.handle).
module FastCgi {
  import opened Text
  import opened Streams

  const MAX_RECORDS: nat := 128
  const MAX_STREAM: nat := 16384
  const BEGIN: nat := 1
  const PARAMS: nat := 4
  const STDIN: nat := 5

  // One record as it is on the wire; padding and the reserved byte carry nothing.
  datatype Record = Record(version: Byte, kind: Byte, identity: nat, content: Bytes, padding: Bytes, reserved: Byte)

  predicate OnWire(r: Record)
  {
    r.identity < 0x1_0000 && |r.content| < 0x1_0000 && |r.padding| < 256
  }

  function EncodeRecord(r: Record): (bytes: Bytes)
    requires OnWire(r)
    ensures |bytes| == 8 + |r.content| + |r.padding|
  {
    [r.version, r.kind, r.identity / 256, r.identity % 256, |r.content| / 256, |r.content| % 256,
     |r.padding|, r.reserved]
    + r.content + r.padding
  }

  ghost predicate AllOnWire(rs: seq<Record>)
  {
    forall i | 0 <= i < |rs| :: OnWire(rs[i])
  }

  function EncodeRecords(rs: seq<Record>): Bytes
    requires AllOnWire(rs)
  {
    if rs == [] then [] else EncodeRecord(rs[0]) + EncodeRecords(rs[1..])
  }

  // ---- what a request is -------------------------------------------------------------------------------------

  predicate Framed(r: Record)
  {
    r.version == 1 && r.identity != 0
  }

  // The concatenated contents of the records of one kind.
  function StreamOf(rs: seq<Record>, kind: nat): Bytes
  {
    if rs == [] then []
    else StreamOf(rs[..|rs| - 1], kind) + if rs[|rs| - 1].kind == kind then rs[|rs| - 1].content else []
  }

  predicate Begun(rs: seq<Record>)
  {
    exists i | 0 <= i < |rs| :: rs[i].kind == BEGIN
  }

  predicate AsksToKeep(content: Bytes)
  {
    |content| >= 3 && content[2] % 2 == 1
  }

  // What the last begin record asks for.
  function KeepAlive(rs: seq<Record>): bool
  {
    if rs == [] then false
    else if rs[|rs| - 1].kind == BEGIN then AsksToKeep(rs[|rs| - 1].content)
    else KeepAlive(rs[..|rs| - 1])
  }

  // Record i ends the input: an empty stdin record after a begin record.
  predicate Ends(rs: seq<Record>, i: nat)
    requires i < |rs|
  {
    rs[i].kind == STDIN && rs[i].content == [] && Begun(rs[..i])
  }

  // A whole request within the limits: the last record, and no other, ends it.
  ghost predicate WholeRequest(rs: seq<Record>)
  {
    && 1 <= |rs| <= MAX_RECORDS && AllOnWire(rs)
    && (forall i | 0 <= i < |rs| :: Framed(rs[i]))
    && (forall i | 0 <= i < |rs| :: Ends(rs, i) <==> i == |rs| - 1)
    && |StreamOf(rs, PARAMS)| <= MAX_STREAM && |StreamOf(rs, STDIN)| <= MAX_STREAM
  }

  // ---- the loop as a function of the bytes -------------------------------------------------------------------

  datatype State = State(params: Bytes, body: Bytes, keepAlive: bool, begun: bool)

  datatype Outcome = Request(params: Bytes, body: Bytes, keepAlive: bool, rest: Bytes) | Closed | Invalid

  function Step(s: State, kind: nat, content: Bytes): State
  {
    if kind == BEGIN then s.(begun := true, keepAlive := AsksToKeep(content))
    else if kind == PARAMS then s.(params := s.params + content)
    else if kind == STDIN then s.(body := s.body + content)
    else s
  }

  function Word(high: int, low: int): int
  {
    high * 256 + low
  }

  // The next record on the connection: cut off, malformed, or all there.
  datatype Arrival = Cut | Malformed | Arrived(kind: nat, content: Bytes, rest: Bytes)

  function Arrive(data: Bytes): (a: Arrival)
    ensures a.Arrived? ==> |a.rest| < |data|
  {
    if |data| < 8 then Cut
    else
      var size: int, padding: int := Word(data[4], data[5]), data[6];
      if data[0] != 1 || Word(data[2], data[3]) == 0 then Malformed
      else if |data| < 8 + size + padding then Cut
      else Arrived(data[1], data[8..8 + size], data[8 + size + padding..])
  }

  function Handle(data: Bytes, s: State, left: nat): Outcome
  {
    if left == 0 then Invalid
    else
      match Arrive(data)
      case Cut => Closed
      case Malformed => Invalid
      case Arrived(kind, content, rest) =>
        var t := Step(s, kind, content);
        if kind == STDIN && content == [] && s.begun then Request(t.params, t.body, t.keepAlive, rest)
        else if |t.params| > MAX_STREAM || |t.body| > MAX_STREAM then Invalid
        else Handle(rest, t, left - 1)
  }

  const START: State := State([], [], false, false)

  // One record off the connection, whatever pieces its bytes come in.
  method ReadRecord(stream: Reader) returns (a: Arrival)
    modifies stream
    ensures a == Arrive(old(stream.rest))
    ensures a.Arrived? ==> stream.rest == a.rest
  {
    ghost var data := stream.rest;
    var header := Exactly(stream, 8);
    if header.None? { return Cut; }
    var version, kind := header.value[0], header.value[1];
    var identity := Word(header.value[2], header.value[3]);
    var size: int, padding: int := Word(header.value[4], header.value[5]), header.value[6];
    if version != 1 || identity == 0 { return Malformed; }
    var content := Exactly(stream, size);
    if content.None? { return Cut; }
    var ignored := Exactly(stream, padding);
    if ignored.None? { return Cut; }
    assert content.value == data[8..8 + size] && stream.rest == data[8 + size + padding..];
    return Arrived(kind, content.value, stream.rest);
  }

  // One request off the connection.
  method ReceiveRequest(stream: Reader) returns (r: Outcome)
    modifies stream
    ensures r == Handle(old(stream.rest), START, MAX_RECORDS)
    ensures r.Request? ==> stream.rest == r.rest
  {
    hide Arrive;
    var s := START;
    for i := 0 to MAX_RECORDS
      invariant Handle(old(stream.rest), START, MAX_RECORDS) == Handle(stream.rest, s, MAX_RECORDS - i)
    {
      var a := ReadRecord(stream);
      if a.Cut? { return Closed; }
      if a.Malformed? { return Invalid; }
      if a.kind == BEGIN {
        s := s.(begun := true, keepAlive := |a.content| >= 3 && a.content[2] % 2 == 1);
      } else if a.kind == PARAMS {
        s := s.(params := s.params + a.content);
      } else if a.kind == STDIN {
        s := s.(body := s.body + a.content);
        if a.content == [] && s.begun {
          return Request(s.params, s.body, s.keepAlive, stream.rest);
        }
      }
      if |s.params| > MAX_STREAM || |s.body| > MAX_STREAM { return Invalid; }
    }
    return Invalid;
  }

  // ---- the loop receives exactly the whole requests ----------------------------------------------------------

  lemma RecordReadBack(r: Record, rest: Bytes)
    requires OnWire(r)
    ensures var data := EncodeRecord(r) + rest; var size, padding := |r.content|, |r.padding|;
            && |data| >= 8 + size + padding
            && data[0] == r.version && data[1] == r.kind && Word(data[2], data[3]) == r.identity
            && Word(data[4], data[5]) == size && data[6] == padding
            && data[8..8 + size] == r.content && data[8 + size + padding..] == rest
  {
  }

  // What a header and the bytes after it encode.
  function RecordAt(data: Bytes): (r: Record)
    requires |data| >= 8 && |data| >= 8 + Word(data[4], data[5]) + data[6]
    ensures OnWire(r)
  {
    var size: int, padding: int := Word(data[4], data[5]), data[6];
    Record(data[0], data[1], Word(data[2], data[3]), data[8..8 + size], data[8 + size..8 + size + padding], data[7])
  }

  lemma RecordFound(data: Bytes)
    requires |data| >= 8 && |data| >= 8 + Word(data[4], data[5]) + data[6]
    ensures data == EncodeRecord(RecordAt(data)) + data[8 + Word(data[4], data[5]) + data[6]..]
  {
    var size: int, padding: int := Word(data[4], data[5]), data[6];
    WordSplits(data[2], data[3]);
    WordSplits(data[4], data[5]);
    HeaderIs(data);
    FourParts(data, 8, 8 + size, 8 + size + padding);
  }

  lemma WordSplits(high: Byte, low: Byte)
    ensures Word(high, low) / 256 == high && Word(high, low) % 256 == low
  {
  }

  lemma HeaderIs(data: Bytes)
    requires |data| >= 8
    ensures data[..8] == [data[0], data[1], data[2], data[3], data[4], data[5], data[6], data[7]]
  {
  }

  lemma FourParts<T>(s: seq<T>, a: nat, b: nat, c: nat)
    requires a <= b <= c <= |s|
    ensures s == s[..a] + s[a..b] + s[b..c] + s[c..]
  {
  }

  function StateAfter(rs: seq<Record>): State
  {
    State(StreamOf(rs, PARAMS), StreamOf(rs, STDIN), KeepAlive(rs), Begun(rs))
  }

  lemma StateStep(rs: seq<Record>, r: Record)
    ensures StateAfter(rs + [r]) == Step(StateAfter(rs), r.kind, r.content)
  {
  }

  // One turn of the loop.
  lemma HandleRecord(r: Record, rest: Bytes, s: State, left: nat)
    requires OnWire(r) && left > 0
    ensures Handle(EncodeRecord(r) + rest, s, left) ==
            if !Framed(r) then Invalid
            else
              var t := Step(s, r.kind, r.content);
              if r.kind == STDIN && r.content == [] && s.begun then Request(t.params, t.body, t.keepAlive, rest)
              else if |t.params| > MAX_STREAM || |t.body| > MAX_STREAM then Invalid
              else Handle(rest, t, left - 1)
  {
    hide EncodeRecord, Word, Step;
    RecordReadBack(r, rest);
  }

  lemma {:induction false} StreamGrows(rs: seq<Record>, i: nat, kind: nat)
    requires i <= |rs|
    ensures |StreamOf(rs[..i], kind)| <= |StreamOf(rs, kind)|
    decreases |rs|
  {
    if i < |rs| {
      var n := |rs| - 1;
      StreamGrows(rs[..n], i, kind);
      assert rs[..n][..i] == rs[..i];
    } else {
      assert rs[..i] == rs;
    }
  }

  // A request received so far: framed, within the limits and not ended.
  ghost predicate Underway(rs: seq<Record>)
  {
    && |rs| <= MAX_RECORDS && AllOnWire(rs)
    && (forall i | 0 <= i < |rs| :: Framed(rs[i]) && !Ends(rs, i))
    && |StreamOf(rs, PARAMS)| <= MAX_STREAM && |StreamOf(rs, STDIN)| <= MAX_STREAM
  }

  // Everything before the end of a whole request is a request under way.
  lemma Before(rs: seq<Record>, n: nat)
    requires WholeRequest(rs) && n < |rs|
    ensures Underway(rs[..n])
    ensures (rs[n].kind == STDIN && rs[n].content == [] && StateAfter(rs[..n]).begun) <==> n == |rs| - 1
    ensures Framed(rs[n]) && OnWire(rs[n]) &&
            StateAfter(rs[..n + 1]) == Step(StateAfter(rs[..n]), rs[n].kind, rs[n].content)
    ensures var t := StateAfter(rs[..n + 1]); |t.params| <= MAX_STREAM && |t.body| <= MAX_STREAM
  {
    hide StreamOf, KeepAlive, Step;
    var front := rs[..n];
    StreamGrows(rs, n, PARAMS);
    StreamGrows(rs, n, STDIN);
    StreamGrows(rs, n + 1, PARAMS);
    StreamGrows(rs, n + 1, STDIN);
    forall i | 0 <= i < n
      ensures Framed(front[i]) && !Ends(front, i)
    {
      assert front[..i] == rs[..i] && front[i] == rs[i];
      assert !Ends(rs, i);
    }
    assert Ends(rs, n) <==> n == |rs| - 1;
    assert rs[..n + 1] == front + [rs[n]];
    StateStep(front, rs[n]);
  }

  // Every whole request is received, with the parameter and input streams its records carry.
  lemma {:induction false} ReceivedFrom(rs: seq<Record>, n: nat, tail: Bytes)
    requires WholeRequest(rs) && n < |rs|
    ensures AllOnWire(rs[n..])
    ensures Handle(EncodeRecords(rs[n..]) + tail, StateAfter(rs[..n]), MAX_RECORDS - n) ==
            Request(StreamOf(rs, PARAMS), StreamOf(rs, STDIN), KeepAlive(rs), tail)
    decreases |rs| - n
  {
    hide Handle, StreamOf, KeepAlive, Step, EncodeRecord, Begun, Ends;
    Before(rs, n);
    var more := rs[n..];
    assert more[0] == rs[n] && more[1..] == rs[n + 1..];
    var rest := EncodeRecords(more[1..]) + tail;
    assert EncodeRecords(more) + tail == EncodeRecord(rs[n]) + rest;
    HandleRecord(rs[n], rest, StateAfter(rs[..n]), MAX_RECORDS - n);
    if n == |rs| - 1 {
      assert rs[..n + 1] == rs && more[1..] == [] && rest == tail;
    } else {
      ReceivedFrom(rs, n + 1, tail);
    }
  }

  // What is received is a whole request.
  lemma {:induction false} ReceivedIs(data: Bytes, before: seq<Record>) returns (rs: seq<Record>)
    requires Underway(before) && Handle(data, StateAfter(before), MAX_RECORDS - |before|).Request?
    ensures var r := Handle(data, StateAfter(before), MAX_RECORDS - |before|);
            && before < rs && WholeRequest(rs)
            && data == EncodeRecords(rs[|before|..]) + r.rest
            && r == Request(StreamOf(rs, PARAMS), StreamOf(rs, STDIN), KeepAlive(rs), r.rest)
    decreases MAX_RECORDS - |before|
  {
    hide StreamOf, KeepAlive, Step, EncodeRecord, Handle, RecordAt, WholeRequest, Begun, Ends;
    var n := |before|;
    var next, rest := HandledRecord(data, StateAfter(before), MAX_RECORDS - n);
    HandleRecord(next, rest, StateAfter(before), MAX_RECORDS - n);
    StateStep(before, next);
    var more := before + [next];
    GoesOn(before, next);
    if Ends(more, n) {
      rs := more;
      assert rs[n..] == [next] && [next][1..] == [];
      assert EncodeRecords([next]) == EncodeRecord(next) + [];
    } else {
      rs := ReceivedIs(rest, more);
      assert rs[n] == next && rs[n..][0] == next && rs[n..][1..] == rs[n + 1..];
      WholeOnWire(rs, n);
      assert EncodeRecords(rs[n..]) == EncodeRecord(next) + EncodeRecords(rs[n + 1..]);
    }
  }

  lemma WholeOnWire(rs: seq<Record>, n: nat)
    requires WholeRequest(rs) && n <= |rs|
    ensures AllOnWire(rs[n..])
  {
  }

  lemma HandledRecord(data: Bytes, s: State, left: nat) returns (next: Record, rest: Bytes)
    requires Handle(data, s, left).Request?
    ensures left > 0 && OnWire(next) && Framed(next) && data == EncodeRecord(next) + rest
  {
    hide EncodeRecord, Step;
    next, rest := RecordAt(data), data[8 + Word(data[4], data[5]) + data[6]..];
    RecordFound(data);
  }

  lemma GoesOn(before: seq<Record>, next: Record)
    requires Underway(before) && |before| < MAX_RECORDS && Framed(next) && OnWire(next)
    requires (next.kind == STDIN && next.content == [] && StateAfter(before).begun) ||
             var t := StateAfter(before + [next]); |t.params| <= MAX_STREAM && |t.body| <= MAX_STREAM
    ensures var more := before + [next];
            && (Ends(more, |before|) <==> next.kind == STDIN && next.content == [] && StateAfter(before).begun)
            && (if Ends(more, |before|) then WholeRequest(more) else Underway(more))
  {
    var more := before + [next];
    assert more[..|before|] == before && more[|before|] == next;
    forall i | 0 <= i < |before|
      ensures Framed(more[i]) && !Ends(more, i) && OnWire(more[i])
    {
      assert more[i] == before[i] && more[..i] == before[..i];
      assert !Ends(before, i);
    }
  }

  // rs is a whole request in which the records carry these streams.
  ghost predicate Carries(rs: seq<Record>, params: Bytes, body: Bytes, keepAlive: bool)
  {
    WholeRequest(rs) && StreamOf(rs, PARAMS) == params && StreamOf(rs, STDIN) == body && KeepAlive(rs) == keepAlive
  }

  // The demultiplexer receives a request exactly when the bytes start with the records of a whole one: at most 128
  // records, at most 16384 bytes of each stream.
  lemma DemuxExact(data: Bytes, params: Bytes, body: Bytes, keepAlive: bool, rest: Bytes)
    ensures Handle(data, START, MAX_RECORDS) == Request(params, body, keepAlive, rest) <==>
              exists rs :: Carries(rs, params, body, keepAlive) && data == EncodeRecords(rs) + rest
  {
    hide Handle, StreamOf, KeepAlive, Begun, EncodeRecords;
    NothingYet();
    if Handle(data, START, MAX_RECORDS) == Request(params, body, keepAlive, rest) {
      var rs := ReceivedIs(data, []);
      assert rs[0..] == rs;
      assert Carries(rs, params, body, keepAlive);
    }
    if rs :| Carries(rs, params, body, keepAlive) && data == EncodeRecords(rs) + rest {
      ReceivedFrom(rs, 0, rest);
      assert rs[0..] == rs && rs[..0] == [];
    }
  }

  lemma NothingYet()
    ensures StateAfter([]) == START && Underway([])
  {
  }

  // ---- streams and flags, in other words -----------------------------------------------------------------------

  // The streams of records received one after another are joined in that order; records of another kind add nothing.
  lemma {:induction false} StreamJoins(rs: seq<Record>, more: seq<Record>, kind: nat)
    ensures StreamOf(rs + more, kind) == StreamOf(rs, kind) + StreamOf(more, kind)
    decreases |more|
  {
    if more == [] {
      assert rs + more == rs;
    } else {
      var n := |more| - 1;
      StreamJoins(rs, more[..n], kind);
      var all := rs + more;
      assert all[..|all| - 1] == rs + more[..n] && all[|all| - 1] == more[n];
      Regroup(StreamOf(rs, kind), StreamOf(more[..n], kind), if more[n].kind == kind then more[n].content else []);
    }
  }

  lemma Regroup(a: Bytes, b: Bytes, c: Bytes)
    ensures a + b + c == a + (b + c)
  {
  }

  lemma StreamOne(r: Record, kind: nat)
    ensures StreamOf([r], kind) == if r.kind == kind then r.content else []
  {
    assert [r][..0] == [];
  }

  // The connection is kept exactly when the last begin record has a third byte and that byte is odd.
  lemma {:induction false} KeepAliveExactly(rs: seq<Record>)
    ensures KeepAlive(rs) <==>
              exists i :: 0 <= i < |rs| && rs[i].kind == 1 && (forall j | i < j < |rs| :: rs[j].kind != 1)
                          && |rs[i].content| >= 3 && rs[i].content[2] % 2 == 1
  {
    if rs != [] {
      var n := |rs| - 1;
      KeepAliveExactly(rs[..n]);
      if rs[n].kind != 1 {
        if i :| 0 <= i < |rs| && rs[i].kind == 1 && (forall j | i < j < |rs| :: rs[j].kind != 1)
                && |rs[i].content| >= 3 && rs[i].content[2] % 2 == 1 {
          assert rs[..n][i] == rs[i];
        }
      }
    }
  }

  // ---- every other end -----------------------------------------------------------------------------------------

  // The bytes end inside a record, or before one: what there is of its header is not wrong.
  ghost predicate StopsInside(frag: Bytes)
  {
    exists r :: OnWire(r) && frag < EncodeRecord(r) && (|frag| >= 8 ==> Framed(r))
  }

  // A whole header of another version, or without a request id.
  ghost predicate Misframed(frag: Bytes)
  {
    |frag| >= 8 && (frag[0] != 1 || (frag[2] == 0 && frag[3] == 0))
  }

  // The bytes start with this well-framed record.
  ghost predicate StartsWith(frag: Bytes, r: Record)
  {
    OnWire(r) && Framed(r) && EncodeRecord(r) <= frag
  }

  // With the next record a stream is over its limit, and the record does not end the request.
  ghost predicate Overflows(rs: seq<Record>, frag: Bytes)
  {
    exists r :: StartsWith(frag, r) && !Ends(rs + [r], |rs|)
                && (|StreamOf(rs + [r], PARAMS)| > 16384 || |StreamOf(rs + [r], STDIN)| > 16384)
  }

  // The next record ends the request.
  ghost predicate Completes(rs: seq<Record>, frag: Bytes)
  {
    exists r :: StartsWith(frag, r) && Ends(rs + [r], |rs|)
  }

  // How bytes can go on after the records of a request under way that takes no more of them.
  ghost predicate Settled(rs: seq<Record>, frag: Bytes)
  {
    |rs| == 128 || StopsInside(frag) || Misframed(frag) || Overflows(rs, frag) || Completes(rs, frag)
  }

  // All bytes are the records of a request under way, and one of these.
  lemma {:induction false} Followed(data: Bytes, before: seq<Record>) returns (rs: seq<Record>, frag: Bytes)
    requires Underway(before)
    ensures before <= rs && Underway(rs) && AllOnWire(rs[|before|..]) && Settled(rs, frag)
    ensures data == EncodeRecords(rs[|before|..]) + frag
    decreases MAX_RECORDS - |before|
  {
    hide StreamOf, EncodeRecord, StopsInside, Misframed, Overflows, Completes, Begun, Ends, Underway, Framed;
    var n := |before|;
    rs, frag := before, data;
    assert before[n..] == [] && data == EncodeRecords([]) + data;
    UnderwayOnWire(before, n);
    if n < MAX_RECORDS && !StopsInside(data) && !Misframed(data) {
      var next := NextRecord(data);
      var more, rest := before + [next], data[|EncodeRecord(next)|..];
      assert data == EncodeRecord(next) + rest;
      if !Ends(more, n) && |StreamOf(more, PARAMS)| <= MAX_STREAM && |StreamOf(more, STDIN)| <= MAX_STREAM {
        OneMoreUnderway(before, next);
        rs, frag := Followed(rest, more);
        FirstOf(before, next, rs);
        UnderwayOnWire(rs, n);
        assert EncodeRecords(rs[n..]) == EncodeRecord(next) + EncodeRecords(rs[n + 1..]);
      } else {
        SettledBy(before, data, next);
      }
    }
  }

  lemma SettledBy(rs: seq<Record>, frag: Bytes, r: Record)
    requires StartsWith(frag, r)
    requires Ends(rs + [r], |rs|) || |StreamOf(rs + [r], PARAMS)| > 16384 || |StreamOf(rs + [r], STDIN)| > 16384
    ensures Overflows(rs, frag) || Completes(rs, frag)
  {
    hide StreamOf, EncodeRecord, Begun, Ends, StartsWith;
  }

  lemma UnderwayOnWire(rs: seq<Record>, n: nat)
    requires Underway(rs) && n <= |rs|
    ensures |rs| <= MAX_RECORDS && AllOnWire(rs[n..]) && AllOnWire(rs)
  {
  }

  lemma FirstOf<T>(before: seq<T>, next: T, all: seq<T>)
    requires before + [next] <= all
    ensures before <= all && all[|before|..] == [next] + all[|before| + 1..]
    ensures all[|before|..][1..] == all[|before| + 1..] && all[|before|] == next
  {
    assert all[|before|] == (before + [next])[|before|];
  }

  lemma OneMoreUnderway(before: seq<Record>, next: Record)
    requires Underway(before) && |before| < MAX_RECORDS && Framed(next) && OnWire(next)
    requires var more := before + [next];
             !Ends(more, |before|) && |StreamOf(more, PARAMS)| <= MAX_STREAM && |StreamOf(more, STDIN)| <= MAX_STREAM
    ensures Underway(before + [next])
  {
    hide StreamOf, KeepAlive, Begun, Ends, WholeRequest;
    GoesOn(before, next);
  }

  // Bytes that neither stop inside a record nor are badly framed start with a record.
  lemma NextRecord(data: Bytes) returns (next: Record)
    requires !StopsInside(data) && !Misframed(data)
    ensures StartsWith(data, next)
  {
    hide EncodeRecord, StopsInside;
    StopsShort(data);
    next := RecordAt(data);
    RecordFound(data);
  }

  lemma StopsShort(data: Bytes)
    requires !Misframed(data)
    ensures |data| < 8 || |data| < 8 + Word(data[4], data[5]) + data[6] ==> StopsInside(data)
  {
    var header := if |data| < 8 then data + seq(8 - |data|, _ => 0) else data;
    var total := 8 + Word(header[4], header[5]) + header[6];
    if |data| < total {
      var all := data + seq(total - |data|, _ => 0);
      assert forall i | 0 <= i < 8 :: all[i] == header[i];
      RecordFound(all);
      assert all[total..] == [];
      assert data < EncodeRecord(RecordAt(all));
    }
  }

  // The records of a request under way are taken in, and the loop goes on with what follows.
  lemma {:induction false} TakenIn(rs: seq<Record>, n: nat, frag: Bytes)
    requires Underway(rs) && n <= |rs|
    ensures AllOnWire(rs[n..])
    ensures Handle(EncodeRecords(rs[n..]) + frag, StateAfter(rs[..n]), MAX_RECORDS - n) ==
            Handle(frag, StateAfter(rs), MAX_RECORDS - |rs|)
    decreases |rs| - n
  {
    hide Handle, StreamOf, KeepAlive, Step, EncodeRecord, Begun, Ends;
    UnderwayOnWire(rs, n);
    if n == |rs| {
      assert rs[n..] == [] && EncodeRecords([]) + frag == frag && rs[..n] == rs;
    } else {
      TurnUnderway(rs, n);
      var more := rs[n..];
      assert more[0] == rs[n] && more[1..] == rs[n + 1..];
      var rest := EncodeRecords(more[1..]) + frag;
      assert EncodeRecords(more) + frag == EncodeRecord(rs[n]) + rest;
      HandleRecord(rs[n], rest, StateAfter(rs[..n]), MAX_RECORDS - n);
      TakenIn(rs, n + 1, frag);
    }
  }

  lemma TurnUnderway(rs: seq<Record>, n: nat)
    requires Underway(rs) && n < |rs|
    ensures Framed(rs[n]) && OnWire(rs[n])
    ensures !(rs[n].kind == STDIN && rs[n].content == [] && StateAfter(rs[..n]).begun)
    ensures StateAfter(rs[..n + 1]) == Step(StateAfter(rs[..n]), rs[n].kind, rs[n].content)
    ensures var t := StateAfter(rs[..n + 1]); |t.params| <= MAX_STREAM && |t.body| <= MAX_STREAM
  {
    hide StreamOf, KeepAlive, Step;
    StreamGrows(rs, n + 1, PARAMS);
    StreamGrows(rs, n + 1, STDIN);
    assert !Ends(rs, n) && rs[..n + 1] == rs[..n] + [rs[n]];
    StateStep(rs[..n], rs[n]);
  }

  // What the loop makes of each way the bytes go on.
  ghost predicate Verdict(rs: seq<Record>, frag: Bytes, r: Outcome)
  {
    && (|rs| == 128 ==> r.Invalid?)
    && (|rs| < 128 && StopsInside(frag) ==> r.Closed?)
    && (|rs| < 128 && Misframed(frag) ==> r.Invalid?)
    && (|rs| < 128 && Overflows(rs, frag) ==> r.Invalid?)
    && (|rs| < 128 && Completes(rs, frag) ==> r.Request?)
  }

  lemma EndOf(rs: seq<Record>, frag: Bytes)
    requires Underway(rs)
    ensures Verdict(rs, frag, Handle(frag, StateAfter(rs), MAX_RECORDS - |rs|))
  {
    hide StreamOf, KeepAlive, EncodeRecord, Begun, Step, Underway, Overflows, Completes, StopsInside;
    UnderwayOnWire(rs, 0);
    if |rs| < 128 {
      if StopsInside(frag) {
        StopsIsCut(frag);
      }
      if Overflows(rs, frag) {
        OverflowsIsInvalid(rs, frag);
      }
      if Completes(rs, frag) {
        CompletesIsRequest(rs, frag);
      }
    }
  }

  lemma StopsIsCut(frag: Bytes)
    requires StopsInside(frag)
    ensures Arrive(frag).Cut?
  {
    var r :| OnWire(r) && frag < EncodeRecord(r) && (|frag| >= 8 ==> Framed(r));
    var all := EncodeRecord(r);
    RecordReadBack(r, []);
    assert all + [] == all;
    assert forall i | 0 <= i < |frag| :: frag[i] == all[i];
  }

  lemma OverflowsIsInvalid(rs: seq<Record>, frag: Bytes)
    requires Overflows(rs, frag) && |rs| < MAX_RECORDS
    ensures Handle(frag, StateAfter(rs), MAX_RECORDS - |rs|).Invalid?
  {
    hide StreamOf, KeepAlive, EncodeRecord, Begun, Step, Handle;
    var r :| StartsWith(frag, r) && !Ends(rs + [r], |rs|)
             && (|StreamOf(rs + [r], PARAMS)| > 16384 || |StreamOf(rs + [r], STDIN)| > 16384);
    NextTurn(rs, frag, r);
  }

  lemma CompletesIsRequest(rs: seq<Record>, frag: Bytes)
    requires Completes(rs, frag) && |rs| < MAX_RECORDS
    ensures Handle(frag, StateAfter(rs), MAX_RECORDS - |rs|).Request?
  {
    hide StreamOf, KeepAlive, EncodeRecord, Begun, Step, Handle;
    var r :| StartsWith(frag, r) && Ends(rs + [r], |rs|);
    NextTurn(rs, frag, r);
  }

  lemma NextTurn(rs: seq<Record>, frag: Bytes, r: Record)
    requires StartsWith(frag, r) && |rs| < MAX_RECORDS
    ensures Handle(frag, StateAfter(rs), MAX_RECORDS - |rs|) ==
            var t, rest := StateAfter(rs + [r]), frag[|EncodeRecord(r)|..];
            if Ends(rs + [r], |rs|) then Request(t.params, t.body, t.keepAlive, rest)
            else if |t.params| > MAX_STREAM || |t.body| > MAX_STREAM then Invalid
            else Handle(rest, t, MAX_RECORDS - |rs| - 1)
  {
    hide StreamOf, KeepAlive, EncodeRecord, Begun, Step, Handle;
    var rest := frag[|EncodeRecord(r)|..];
    assert frag == EncodeRecord(r) + rest;
    assert (rs + [r])[..|rs|] == rs;
    HandleRecord(r, rest, StateAfter(rs), MAX_RECORDS - |rs|);
    StateStep(rs, r);
  }

  // The connection is found closed exactly when the bytes are those of a request under way that stops inside a record
  // or before one.
  ghost predicate BreaksOff(data: Bytes, rs: seq<Record>, frag: Bytes)
  {
    Underway(rs) && |rs| < 128 && AllOnWire(rs) && data == EncodeRecords(rs) + frag && StopsInside(frag)
  }

  lemma ClosedExactly(data: Bytes)
    ensures Handle(data, START, MAX_RECORDS).Closed? <==> exists rs, frag :: BreaksOff(data, rs, frag)
  {
    hide Handle, Underway, StopsInside, EncodeRecords, Overflows, Completes, Misframed;
    if Handle(data, START, MAX_RECORDS).Closed? {
      var rs, frag := EndFound(data);
      assert BreaksOff(data, rs, frag);
    }
    if rs, frag :| BreaksOff(data, rs, frag) {
      EndReached(data, rs, frag);
    }
  }

  // It is found in error exactly when the request under way goes on with a badly framed record or one that takes a
  // stream over its limit of 16384 bytes, or has 128 records and no end.
  ghost predicate Violates(data: Bytes, rs: seq<Record>, frag: Bytes)
  {
    Underway(rs) && AllOnWire(rs) && data == EncodeRecords(rs) + frag &&
    (|rs| == 128 || Misframed(frag) || Overflows(rs, frag))
  }

  lemma InvalidExactly(data: Bytes)
    ensures Handle(data, START, MAX_RECORDS).Invalid? <==> exists rs, frag :: Violates(data, rs, frag)
  {
    hide Handle, Underway, StopsInside, EncodeRecords, Overflows, Completes, Misframed;
    if Handle(data, START, MAX_RECORDS).Invalid? {
      var rs, frag := EndFound(data);
      assert Violates(data, rs, frag);
    }
    if rs, frag :| Violates(data, rs, frag) {
      EndReached(data, rs, frag);
    }
  }

  lemma EndFound(data: Bytes) returns (rs: seq<Record>, frag: Bytes)
    ensures Underway(rs) && AllOnWire(rs) && data == EncodeRecords(rs) + frag && |rs| <= 128
    ensures Settled(rs, frag) && Verdict(rs, frag, Handle(data, START, MAX_RECORDS))
  {
    hide Handle, Underway, StopsInside, EncodeRecords, Overflows, Completes, Misframed, StateAfter;
    NothingYet();
    rs, frag := Followed(data, []);
    assert rs[0..] == rs;
    EndReached(data, rs, frag);
  }

  lemma EndReached(data: Bytes, rs: seq<Record>, frag: Bytes)
    requires Underway(rs) && AllOnWire(rs) && data == EncodeRecords(rs) + frag
    ensures |rs| <= 128 && Verdict(rs, frag, Handle(data, START, MAX_RECORDS))
  {
    hide Handle, Underway, StopsInside, EncodeRecords, Overflows, Completes, Misframed, StateAfter;
    NothingYet();
    UnderwayOnWire(rs, 0);
    assert rs[0..] == rs && rs[..0] == [];
    TakenIn(rs, 0, frag);
    EndOf(rs, frag);
  }

  // Fragmentation does not matter: however the same streams are cut into records, interleaved and padded, the same
  // request is received.
  lemma FragmentationIgnored(rs: seq<Record>, other: seq<Record>, tail: Bytes)
    requires WholeRequest(rs) && WholeRequest(other)
    requires StreamOf(rs, PARAMS) == StreamOf(other, PARAMS) && StreamOf(rs, STDIN) == StreamOf(other, STDIN)
    requires KeepAlive(rs) == KeepAlive(other)
    ensures Handle(EncodeRecords(rs) + tail, START, MAX_RECORDS) ==
            Handle(EncodeRecords(other) + tail, START, MAX_RECORDS)
    ensures Handle(EncodeRecords(rs) + tail, START, MAX_RECORDS).Request?
  {
    hide Handle, StreamOf, KeepAlive, EncodeRecords;
    assert Carries(rs, StreamOf(rs, PARAMS), StreamOf(rs, STDIN), KeepAlive(rs));
    assert Carries(other, StreamOf(rs, PARAMS), StreamOf(rs, STDIN), KeepAlive(rs));
    DemuxExact(EncodeRecords(rs) + tail, StreamOf(rs, PARAMS), StreamOf(rs, STDIN), KeepAlive(rs), tail);
    DemuxExact(EncodeRecords(other) + tail, StreamOf(rs, PARAMS), StreamOf(rs, STDIN), KeepAlive(rs), tail);
  }

  // A whole request whose two records carry different request ids is received like any other.
  lemma MixedIdentities() returns (rs: seq<Record>)
    ensures WholeRequest(rs) && |rs| == 2 && rs[0].identity != rs[1].identity
    ensures Handle(EncodeRecords(rs), START, MAX_RECORDS).Request?
  {
    rs := [Record(1, BEGIN, 1, [], [], 0), Record(1, STDIN, 2, [], [], 0)];
    var first := [rs[0]];
    assert rs[..0] == [] && rs[..1] == first && first[..0] == [] && first[0].kind == BEGIN;
    assert StreamOf([], PARAMS) == [] && StreamOf([], STDIN) == [];
    assert StreamOf(first, PARAMS) == [] && StreamOf(first, STDIN) == [];
    assert Ends(rs, 1) && !Ends(rs, 0);
    assert EncodeRecords(rs) + [] == EncodeRecords(rs);
    assert Carries(rs, StreamOf(rs, PARAMS), StreamOf(rs, STDIN), KeepAlive(rs));
    DemuxExact(EncodeRecords(rs), StreamOf(rs, PARAMS), StreamOf(rs, STDIN), KeepAlive(rs), []);
  }
}
