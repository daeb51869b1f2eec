// HTTP response framing by Content-Length (section 6.3 of RFC 9112): read_response of
// scripts/smoke_podman_blue_green.py and the byte-at-a-time head of scripts/smoke_protocol_examples.py.
module HttpFraming {
  import opened Text
  import opened Streams

  const RECV: nat := 4096
  const HEAD_LIMIT: nat := 8192

  // int(value.strip()): the number a header value stands for, if any.
  type Number = Bytes -> Option<int>

  // ---- the header block --------------------------------------------------------------------------------------

  predicate BlankAt(s: Bytes, i: nat)
  {
    i + 4 <= |s| && s[i] == 13 && s[i + 1] == 10 && s[i + 2] == 13 && s[i + 3] == 10
  }

  // The first blank line at or after `from`.
  function FindBlank(s: Bytes, from: nat): (r: Option<nat>)
    ensures r.Some? ==> from <= r.value && BlankAt(s, r.value) && forall j | from <= j < r.value :: !BlankAt(s, j)
    ensures r.None? ==> forall j | from <= j :: !BlankAt(s, j)
    decreases |s| - from
  {
    if from + 4 > |s| then None else if BlankAt(s, from) then Some(from) else FindBlank(s, from + 1)
  }

  // What has arrived has the blank line where the whole stream has it, once it is long enough.
  lemma BlankInPrefix(s: Bytes, got: nat)
    requires got <= |s|
    ensures FindBlank(s[..got], 0) ==
            match FindBlank(s, 0) case Some(i) => (if i + 4 <= got then Some(i) else None) case None => None
  {
    assert forall j: nat :: BlankAt(s[..got], j) <==> j + 4 <= got && BlankAt(s, j);
    var a, b := FindBlank(s[..got], 0), FindBlank(s, 0);
    if a.Some? {
      assert BlankAt(s, a.value);
    }
    if b.Some? && b.value + 4 <= got {
      assert BlankAt(s[..got], b.value);
    }
  }

  // head.split(b"\\r\\n")
  function Lines(text: Bytes): (lines: seq<Bytes>)
    ensures |lines| >= 1
  {
    if text == [] then [[]]
    else if |text| >= 2 && text[0] == 13 && text[1] == 10 then [[]] + Lines(text[2..])
    else
      var rest := Lines(text[1..]);
      [[text[0]] + rest[0]] + rest[1..]
  }

  // line.partition(b":"): what is before and after the first colon.
  function Partition(line: Bytes): Option<(Bytes, Bytes)>
  {
    if line == [] then None
    else if line[0] == 58 then Some(([], line[1..]))
    else
      var rest := Partition(line[1..]);
      if rest.None? then None else Some(([line[0]] + rest.value.0, rest.value.1))
  }

  function LowerByte(b: Byte): Byte
  {
    if 65 <= b <= 90 then b + 32 else b
  }

  // The bytes of "content-length".
  const CONTENT_LENGTH: Bytes := [99, 111, 110, 116, 101, 110, 116, 45, 108, 101, 110, 103, 116, 104]

  predicate NamesLength(key: Bytes)
  {
    |key| == |CONTENT_LENGTH| && forall i | 0 <= i < |key| :: LowerByte(key[i]) == CONTENT_LENGTH[i]
  }

  datatype Length = Missing | Malformed | Length(value: int)

  // The first Content-Length among the lines.
  function LengthIn(number: Number, lines: seq<Bytes>): Length
  {
    if lines == [] then Missing
    else
      var field := Partition(lines[0]);
      if field.Some? && NamesLength(field.value.0) then
        (match number(field.value.1) case Some(n) => Length(n) case None => Malformed)
      else LengthIn(number, lines[1..])
  }

  function ContentLength(number: Number, head: Bytes): Length
  {
    LengthIn(number, Lines(head)[1..])
  }

  // ---- the header block, put together from lines -------------------------------------------------------------

  // No line break inside the line.
  ghost predicate Unbroken(line: Bytes)
  {
    forall i | 0 <= i && i + 1 < |line| :: !(line[i] == 13 && line[i + 1] == 10)
  }

  ghost predicate AllUnbroken(lines: seq<Bytes>)
  {
    forall i | 0 <= i < |lines| :: Unbroken(lines[i])
  }

  ghost function JoinLines(lines: seq<Bytes>): Bytes
  {
    if lines == [] then [] else if |lines| == 1 then lines[0] else lines[0] + [13, 10] + JoinLines(lines[1..])
  }

  lemma {:induction false} OneLine(line: Bytes)
    requires Unbroken(line)
    ensures Lines(line) == [line]
  {
    if line != [] {
      OneLine(line[1..]);
      assert [line[0]] + line[1..] == line;
    }
  }

  lemma {:induction false} FirstLine(line: Bytes, rest: Bytes)
    requires Unbroken(line)
    ensures Lines(line + [13, 10] + rest) == [line] + Lines(rest)
  {
    var text := line + [13, 10] + rest;
    if line == [] {
      assert text[2..] == rest;
    } else {
      FirstLine(line[1..], rest);
      assert text[1..] == line[1..] + [13, 10] + rest;
      assert [line[0]] + line[1..] == line;
      assert |line| > 1 ==> !(line[0] == 13 && line[0 + 1] == 10);
    }
  }

  // Every header block is put together from its lines, in just one way.
  lemma {:induction false} LinesOfJoin(lines: seq<Bytes>)
    requires lines != [] && AllUnbroken(lines)
    ensures Lines(JoinLines(lines)) == lines
  {
    hide Lines;
    if |lines| == 1 {
      OneLine(lines[0]);
    } else {
      LinesOfJoin(lines[1..]);
      FirstLine(lines[0], JoinLines(lines[1..]));
    }
  }

  lemma {:induction false} JoinOfLines(text: Bytes)
    ensures JoinLines(Lines(text)) == text && AllUnbroken(Lines(text)) && Lines(text)[0] <= text
  {
    hide JoinLines, Unbroken;
    if text == [] {
      JoinOne([]);
    } else if |text| >= 2 && text[0] == 13 && text[1] == 10 {
      JoinOfLines(text[2..]);
      JoinMore([], Lines(text[2..]));
      assert text == [] + [13, 10] + text[2..];
    } else {
      JoinOfLines(text[1..]);
      var rest := Lines(text[1..]);
      JoinLonger(text[0], rest);
      UnbrokenLonger(text[0], rest[0]);
      assert rest[0] != [] ==> rest[0][0] == text[1..][0];
      assert text == [text[0]] + text[1..];
    }
  }

  lemma JoinOne(line: Bytes)
    ensures JoinLines([line]) == line && (line == [] ==> Unbroken(line))
  {
  }

  lemma JoinMore(line: Bytes, lines: seq<Bytes>)
    requires lines != []
    ensures JoinLines([line] + lines) == line + [13, 10] + JoinLines(lines) && (line == [] ==> Unbroken(line))
  {
    assert ([line] + lines)[1..] == lines;
  }

  lemma JoinLonger(b: Byte, lines: seq<Bytes>)
    requires lines != []
    ensures JoinLines([[b] + lines[0]] + lines[1..]) == [b] + JoinLines(lines)
  {
    var longer := [[b] + lines[0]] + lines[1..];
    assert longer[1..] == lines[1..];
    assert |lines| == 1 ==> longer == [[b] + lines[0]];
  }

  lemma UnbrokenLonger(b: Byte, line: Bytes)
    requires Unbroken(line) && !(b == 13 && line != [] && line[0] == 10)
    ensures Unbroken([b] + line)
  {
  }

  lemma {:induction false} FirstColon(key: Bytes, value: Bytes)
    requires 58 !in key
    ensures Partition(key + [58] + value) == Some((key, value))
  {
    var line := key + [58] + value;
    if key == [] {
      assert line[1..] == value;
    } else {
      FirstColon(key[1..], value);
      assert line[1..] == key[1..] + [58] + value;
      assert [key[0]] + key[1..] == key;
    }
  }

  // The same letter, in either case, or the same byte.
  ghost predicate SameByte(a: Byte, b: Byte)
  {
    a == b || (97 <= a <= 122 && b == a - 32) || (65 <= a <= 90 && b == a + 32)
  }

  // "content-length", in any case.
  ghost predicate SpellsLength(key: Bytes)
  {
    |key| == |"content-length"| && forall i | 0 <= i < |key| :: SameByte(key[i], "content-length"[i] as int)
  }

  ghost predicate LengthField(line: Bytes, key: Bytes, value: Bytes)
  {
    line == key + [58] + value && SpellsLength(key)
  }

  // A line that is no Content-Length field.
  ghost predicate OtherField(line: Bytes)
  {
    forall key, value :: !LengthField(line, key, value)
  }

  lemma NamesLengthMeans(key: Bytes)
    ensures NamesLength(key) <==> SpellsLength(key)
    ensures SpellsLength(key) ==> 58 !in key
  {
    assert |CONTENT_LENGTH| == |"content-length"|;
    assert forall i | 0 <= i < 14 :: CONTENT_LENGTH[i] == "content-length"[i] as int;
  }

  lemma {:induction false} PartitionMeans(line: Bytes)
    ensures match Partition(line)
            case Some(field) => line == field.0 + [58] + field.1 && 58 !in field.0
            case None => 58 !in line
  {
    if line != [] && line[0] != 58 {
      PartitionMeans(line[1..]);
      assert line == [line[0]] + line[1..];
    }
  }

  lemma FieldMeans(line: Bytes)
    ensures OtherField(line) <==> Partition(line).None? || !NamesLength(Partition(line).value.0)
  {
    hide Partition, NamesLength, SpellsLength;
    PartitionMeans(line);
    var field := Partition(line);
    if !OtherField(line) {
      var key, value :| LengthField(line, key, value);
      NamesLengthMeans(key);
      FirstColon(key, value);
    } else if field.Some? {
      NamesLengthMeans(field.value.0);
      assert LengthField(line, field.value.0, field.value.1) <==> SpellsLength(field.value.0);
    }
  }

  lemma {:induction false} SkipOthers(number: Number, before: seq<Bytes>, rest: seq<Bytes>)
    requires forall i | 0 <= i < |before| :: OtherField(before[i])
    ensures LengthIn(number, before + rest) == LengthIn(number, rest)
  {
    hide OtherField, NamesLength;
    if before == [] {
      assert before + rest == rest;
    } else {
      FieldMeans(before[0]);
      SkipOthers(number, before[1..], rest);
      assert (before + rest)[1..] == before[1..] + rest;
    }
  }

  // A status line, fields with other names, a Content-Length spelled in any case, and anything after it.
  ghost function HeadOf(status: Bytes, before: seq<Bytes>, key: Bytes, value: Bytes, after: seq<Bytes>): Bytes
  {
    JoinLines([status] + before + [key + [58] + value] + after)
  }

  // The Content-Length of a header block is the value of its first field of that name, in whatever case it is spelled.
  lemma LengthFound(number: Number, status: Bytes, before: seq<Bytes>, key: Bytes, value: Bytes, after: seq<Bytes>)
    requires AllUnbroken([status] + before + [key + [58] + value] + after) && SpellsLength(key)
    requires forall i | 0 <= i < |before| :: OtherField(before[i])
    ensures ContentLength(number, HeadOf(status, before, key, value, after)) ==
            match number(value) case Some(n) => Length(n) case None => Malformed
  {
    hide Lines, JoinLines, Partition, NamesLength, SpellsLength, OtherField, AllUnbroken;
    var field := key + [58] + value;
    var lines := [status] + before + [field] + after;
    LinesOfJoin(lines);
    assert lines[1..] == before + ([field] + after);
    SkipOthers(number, before, [field] + after);
    NamesLengthMeans(key);
    FirstColon(key, value);
  }

  // There is none exactly when no line after the first is such a field.
  lemma LengthMissing(number: Number, lines: seq<Bytes>)
    requires lines != [] && AllUnbroken(lines)
    ensures ContentLength(number, JoinLines(lines)).Missing? <==> forall i | 1 <= i < |lines| :: OtherField(lines[i])
  {
    hide Lines, JoinLines, OtherField, AllUnbroken;
    LinesOfJoin(lines);
    MissingMeans(number, lines[1..]);
    if forall i | 0 <= i < |lines[1..]| :: OtherField(lines[1..][i]) {
      forall i | 1 <= i < |lines|
        ensures OtherField(lines[i])
      {
        assert lines[i] == lines[1..][i - 1];
      }
    }
  }

  lemma {:induction false} MissingMeans(number: Number, lines: seq<Bytes>)
    ensures LengthIn(number, lines).Missing? <==> forall i | 0 <= i < |lines| :: OtherField(lines[i])
  {
    hide OtherField, NamesLength, Partition;
    if lines != [] {
      FieldMeans(lines[0]);
      MissingMeans(number, lines[1..]);
      assert forall i | 1 <= i < |lines| :: lines[i] == lines[1..][i - 1];
    }
  }

  // ---- receiving in pieces -----------------------------------------------------------------------------------

  // How many bytes the next recv(4096) returns of those left; the plan says how the stream is cut up, and bytes come
  // one by one when it runs out.
  function Piece(plan: seq<nat>, left: nat): (n: nat)
    requires left > 0
    ensures 1 <= n <= left && n <= RECV
  {
    var want := if plan == [] || plan[0] == 0 then 1 else plan[0];
    var most := if left < RECV then left else RECV;
    if want < most then want else most
  }

  function Later(plan: seq<nat>): seq<nat>
  {
    if plan == [] then [] else plan[1..]
  }

  // Bytes received when the blank line is complete, and the plan for what follows; None if the stream ends before.
  function Gather(s: Bytes, got: nat, plan: seq<nat>): (r: Option<(nat, seq<nat>)>)
    requires got <= |s|
    ensures r.Some? ==> got <= r.value.0 <= |s| && FindBlank(s[..r.value.0], 0).Some?
    decreases |s| - got
  {
    if FindBlank(s[..got], 0).Some? then Some((got, plan))
    else if got == |s| then None
    else Gather(s, got + Piece(plan, |s| - got), Later(plan))
  }

  // body[:length], counting from the end when length is negative.
  function Cut(body: Bytes, length: int): Bytes
  {
    if length >= 0 then body[..if length < |body| then length else |body|]
    else body[..if |body| + length > 0 then |body| + length else 0]
  }

  // What read_response returns for the stream s cut up by the plan; None stands for its errors.
  function Respond(number: Number, s: Bytes, plan: seq<nat>): Option<Bytes>
  {
    var gathered := Gather(s, 0, plan);
    if gathered.None? then None
    else
      var got := gathered.value.0;
      var i := FindBlank(s[..got], 0).value;
      var length := ContentLength(number, s[..i]);
      if !length.Length? then None
      else if length.value <= got - (i + 4) then Some(s[..i + 4] + Cut(s[i + 4..got], length.value))
      else if length.value <= |s| - (i + 4) then Some(s[..i + 4 + length.value])
      else None
  }

  // read_response
  method ReadResponse(number: Number, s: Bytes, plan: seq<nat>) returns (r: Option<Bytes>)
    ensures r == Respond(number, s, plan)
  {
    hide FindBlank, ContentLength, Piece, Cut;
    var got, pieces := 0, plan;
    var response: Bytes := [];
    var blank := FindBlank(response, 0);
    while blank.None?
      invariant got <= |s| && response == s[..got] && blank == FindBlank(response, 0)
      invariant Gather(s, 0, plan) == Gather(s, got, pieces)
      decreases |s| - got, blank.None?
    {
      if got == |s| { return None; }
      var n := Piece(pieces, |s| - got);
      assert s[..got] + s[got..got + n] == s[..got + n];
      response := response + s[got..got + n];
      got, pieces := got + n, Later(pieces);
      blank := FindBlank(response, 0);
    }
    var i := blank.value;
    SeenBlank(response, i);
    var head, body := response[..i], response[i + 4..];
    assert head == s[..i] && body == s[i + 4..got];
    var length := ContentLength(number, head);
    if !length.Length? { return None; }
    ghost var first := got;
    while |body| < length.value
      invariant first <= got <= |s| && body == s[i + 4..got]
      invariant first < got ==> length.value > first - (i + 4)
      decreases |s| - got
    {
      if got == |s| { return None; }
      var n := Piece(pieces, |s| - got);
      assert s[i + 4..got] + s[got..got + n] == s[i + 4..got + n];
      body := body + s[got..got + n];
      got, pieces := got + n, Later(pieces);
    }
    r := Some(response[..i + 4] + Cut(body, length.value));
    assert response[..i + 4] == s[..i + 4];
    if first < got {
      CutWhole(s, i + 4, got, length.value);
    }
  }

  lemma CutWhole(s: Bytes, start: nat, got: nat, length: nat)
    requires start + length <= got <= |s|
    ensures s[..start] + Cut(s[start..got], length) == s[..start + length]
  {
  }

  lemma SeenBlank(response: Bytes, i: nat)
    requires FindBlank(response, 0) == Some(i)
    ensures i + 4 <= |response|
  {
  }

  // ---- what does not depend on the pieces --------------------------------------------------------------------

  // The header is complete after some bytes, at most one recv beyond its end, whatever the pieces; and it never is
  // without a blank line.
  lemma {:induction false} Gathered(s: Bytes, got: nat, plan: seq<nat>)
    requires got <= |s| && FindBlank(s[..got], 0).None?
    ensures match FindBlank(s, 0)
            case None => Gather(s, got, plan).None?
            case Some(i) => Gather(s, got, plan).Some? && i + 4 <= Gather(s, got, plan).value.0 < i + 4 + RECV
    decreases |s| - got
  {
    hide FindBlank;
    BlankInPrefix(s, got);
    BlankInPrefix(s, |s|);
    assert s[..|s|] == s;
    if got < |s| {
      var next := got + Piece(plan, |s| - got);
      BlankInPrefix(s, next);
      if FindBlank(s[..next], 0).None? {
        Gathered(s, next, Later(plan));
      } else {
        SeenBlank(s[..next], FindBlank(s[..next], 0).value);
      }
    }
  }

  lemma GatheredFromStart(s: Bytes, plan: seq<nat>)
    ensures match FindBlank(s, 0)
            case None => Gather(s, 0, plan).None?
            case Some(i) =>
              && Gather(s, 0, plan).Some? && i + 4 <= Gather(s, 0, plan).value.0 < i + 4 + RECV
              && FindBlank(s[..Gather(s, 0, plan).value.0], 0) == Some(i)
  {
    assert s[..0] == [];
    Gathered(s, 0, plan);
    if FindBlank(s, 0).Some? {
      BlankInPrefix(s, Gather(s, 0, plan).value.0);
    }
  }

  // With a non-negative Content-Length the response is the same for every way the stream is cut up: the header
  // block and exactly that many bytes, or an error if there are fewer.
  lemma PiecesDoNotMatter(number: Number, s: Bytes, plan: seq<nat>)
    ensures FindBlank(s, 0).None? ==> Respond(number, s, plan).None?
    ensures FindBlank(s, 0).Some? ==>
              var i := FindBlank(s, 0).value;
              match ContentLength(number, s[..i])
              case Length(n) =>
                n >= 0 ==> Respond(number, s, plan) == if i + 4 + n <= |s| then Some(s[..i + 4 + n]) else None
              case _ => Respond(number, s, plan).None?
  {
    hide FindBlank, ContentLength, Gather, Cut;
    GatheredFromStart(s, plan);
    if FindBlank(s, 0).Some? {
      var i, got := FindBlank(s, 0).value, Gather(s, 0, plan).value.0;
      SeenBlank(s, i);
      assert s[..got][..i] == s[..i];
      var length := ContentLength(number, s[..i]);
      if length.Length? && 0 <= length.value <= got - (i + 4) {
        CutWhole(s, i + 4, got, length.value);
      }
    }
  }

  // ---- whole responses ---------------------------------------------------------------------------------------

  // A blank line is not inside an unbroken line, and not at its end if the next line is not empty.
  lemma BlankPast(line: Bytes, t: Bytes, j: nat)
    requires Unbroken(line)
    ensures BlankAt(line + [13, 10] + t, j) ==> |line| <= j
    ensures BlankAt(line + [13, 10] + t, j) && !([13, 10] <= t) ==> j >= |line| + 2 && BlankAt(t, j - |line| - 2)
  {
    var s := line + [13, 10] + t;
    assert j + 1 < |line| ==> s[j] == line[j] && s[j + 1] == line[j + 1];
    assert s[|line|] == 13 && s[|line| + 1] == 10 && s[|line| + 2..] == t;
  }

  lemma NotBlankFirst(line: Bytes, t: Bytes)
    requires Unbroken(line) && line != []
    ensures !([13, 10] <= line + [13, 10] + t)
  {
    var s := line + [13, 10] + t;
    assert |line| > 1 ==> s[0] == line[0] && s[1] == line[0 + 1];
    assert |line| == 1 ==> s[1] == 13;
  }

  // Lines of which only the first may be empty hold no blank line: the one that follows them is the first.
  lemma {:induction false} NoEarlyBlank(lines: seq<Bytes>, body: Bytes, j: nat)
    requires lines != [] && AllUnbroken(lines) && forall i | 1 <= i < |lines| :: lines[i] != []
    requires j < |JoinLines(lines)|
    ensures !BlankAt(JoinLines(lines) + [13, 10, 13, 10] + body, j)
    decreases |lines|
  {
    hide BlankAt, Unbroken;
    var blank: Bytes := [13, 10, 13, 10];
    var s := JoinLines(lines) + blank + body;
    if BlankAt(s, j) {
      if |lines| == 1 {
        assert s == lines[0] + [13, 10] + ([13, 10] + body);
        BlankPast(lines[0], [13, 10] + body, j);
      } else {
        var rest := lines[1..];
        var t := JoinLines(rest) + blank + body;
        var more := JoinLines(if |rest| == 1 then [] else rest[1..]) + (if |rest| == 1 then [13, 10] else blank) + body;
        assert t == rest[0] + [13, 10] + more;
        NotBlankFirst(rest[0], more);
        assert s == lines[0] + [13, 10] + t;
        BlankPast(lines[0], t, j);
        NoEarlyBlank(rest, body, j - |lines[0]| - 2);
      }
    }
  }

  lemma BlankAfter(lines: seq<Bytes>, body: Bytes)
    requires lines != [] && AllUnbroken(lines) && forall i | 1 <= i < |lines| :: lines[i] != []
    ensures FindBlank(JoinLines(lines) + [13, 10, 13, 10] + body, 0) == Some(|JoinLines(lines)|)
  {
    hide FindBlank, JoinLines, BlankAt, AllUnbroken;
    forall j: nat | j < |JoinLines(lines)|
      ensures !BlankAt(JoinLines(lines) + [13, 10, 13, 10] + body, j)
    {
      NoEarlyBlank(lines, body, j);
    }
    BlankThere(JoinLines(lines), body);
    BlankHere(JoinLines(lines) + [13, 10, 13, 10] + body, |JoinLines(lines)|);
  }

  lemma BlankThere(head: Bytes, body: Bytes)
    ensures BlankAt(head + [13, 10, 13, 10] + body, |head|)
  {
  }

  // read_response, on every response with a Content-Length: exactly that many bytes of the body after the head as it
  // came, an error when the body is shorter or the length is no number.
  lemma ResponseExact(number: Number, status: Bytes, before: seq<Bytes>, key: Bytes, value: Bytes, after: seq<Bytes>,
                      body: Bytes, plan: seq<nat>)
    requires AllUnbroken([status] + before + [key + [58] + value] + after) && SpellsLength(key)
    requires forall i | 0 <= i < |before| :: before[i] != [] && OtherField(before[i])
    requires forall i | 0 <= i < |after| :: after[i] != []
    ensures var head := HeadOf(status, before, key, value, after) + [13, 10, 13, 10];
            match number(value)
            case None => Respond(number, head + body, plan).None?
            case Some(n) =>
              n >= 0 ==> Respond(number, head + body, plan) == if n <= |body| then Some(head + body[..n]) else None
  {
    hide SpellsLength, OtherField, AllUnbroken, FindBlank, ContentLength, Respond, JoinLines;
    var lines := [status] + before + [key + [58] + value] + after;
    LengthFound(number, status, before, key, value, after);
    BlankAfter(lines, body);
    var h := JoinLines(lines);
    var head := h + [13, 10, 13, 10];
    var s := head + body;
    assert s[..|h|] == h;
    PiecesDoNotMatter(number, s, plan);
    assert forall n: nat | n <= |body| :: s[..|h| + 4 + n] == head + body[..n];
  }

  // Without a Content-Length there is no response.
  lemma NoLengthNoResponse(number: Number, lines: seq<Bytes>, body: Bytes, plan: seq<nat>)
    requires lines != [] && AllUnbroken(lines)
    requires forall i | 1 <= i < |lines| :: lines[i] != [] && OtherField(lines[i])
    ensures Respond(number, JoinLines(lines) + [13, 10, 13, 10] + body, plan).None?
  {
    hide OtherField, AllUnbroken, FindBlank, ContentLength, Respond, JoinLines;
    LengthMissing(number, lines);
    BlankAfter(lines, body);
    var s := JoinLines(lines) + [13, 10, 13, 10] + body;
    assert s[..|JoinLines(lines)|] == JoinLines(lines);
    PiecesDoNotMatter(number, s, plan);
  }

  // ---- where the pieces do matter ----------------------------------------------------------------------------

  // With a negative Content-Length the response depends on how much of the body came with the header.
  lemma NegativeLength(number: Number, s: Bytes, plan: seq<nat>, i: nat, n: int)
    requires FindBlank(s, 0) == Some(i) && ContentLength(number, s[..i]) == Length(n) && n < 0
    ensures Gather(s, 0, plan).Some?
    ensures var got := Gather(s, 0, plan).value.0;
            i + 4 <= got <= |s| && Respond(number, s, plan) == Some(s[..if got + n > i + 4 then got + n else i + 4])
  {
    hide FindBlank, ContentLength, Gather;
    GatheredFromStart(s, plan);
    var got := Gather(s, 0, plan).value.0;
    assert s[..got][..i] == s[..i];
    var body := s[i + 4..got];
    var end := if got + n > i + 4 then got + n else i + 4;
    assert Cut(body, n) == s[i + 4..end];
    assert s[..i + 4] + s[i + 4..end] == s[..end];
  }

  // One byte at a time, then one piece of `last` bytes.
  function Crawl(bytes: nat, last: nat): seq<nat>
  {
    if bytes == 0 then [last] else [1] + Crawl(bytes - 1, last)
  }

  lemma {:induction false} CrawlGathers(s: Bytes, got: nat, steps: nat, last: nat, i: nat)
    requires FindBlank(s, 0) == Some(i) && got + steps == i + 3 && last >= 1
    ensures Gather(s, got, Crawl(steps, last)).Some?
    ensures Gather(s, got, Crawl(steps, last)).value.0 == i + 3 + Piece([last], |s| - (i + 3))
    decreases steps
  {
    hide FindBlank, Piece;
    SeenBlank(s, i);
    BlankInPrefix(s, got);
    var plan := Crawl(steps, last);
    if steps == 0 {
      var next := got + Piece([last], |s| - got);
      BlankInPrefix(s, next);
    } else {
      OneByte(plan, |s| - got);
      assert Later(plan) == Crawl(steps - 1, last);
      CrawlGathers(s, got + 1, steps - 1, last, i);
    }
  }

  lemma OneByte(plan: seq<nat>, left: nat)
    requires left > 0 && plan != [] && plan[0] == 1
    ensures Piece(plan, left) == 1
  {
  }

  // Exactly when the pieces do not matter: the length is not negative, or it takes away every byte of the body that
  // a single recv can bring along with the end of the header.
  lemma PiecesMatterExactly(number: Number, s: Bytes, i: nat, n: int)
    requires FindBlank(s, 0) == Some(i) && ContentLength(number, s[..i]) == Length(n)
    ensures (forall plan, other :: Respond(number, s, plan) == Respond(number, s, other)) <==>
              n >= 0 || |s| - (i + 4) <= -n || 4095 <= -n
  {
    hide FindBlank, ContentLength, Gather, Respond, Piece;
    SeenBlank(s, i);
    if n >= 0 {
      forall plan, other
        ensures Respond(number, s, plan) == Respond(number, s, other)
      {
        PiecesDoNotMatter(number, s, plan);
        PiecesDoNotMatter(number, s, other);
      }
    } else if |s| - (i + 4) <= -n || RECV - 1 <= -n {
      forall plan
        ensures Respond(number, s, plan) == Some(s[..i + 4])
      {
        NegativeLength(number, s, plan, i, n);
        GatheredFromStart(s, plan);
      }
    } else {
      var slow, fast := Crawl(i + 3, 1), Crawl(i + 3, RECV);
      CrawlGathers(s, 0, i + 3, 1, i);
      CrawlGathers(s, 0, i + 3, RECV, i);
      NegativeLength(number, s, slow, i, n);
      NegativeLength(number, s, fast, i, n);
      LastPieces(|s| - (i + 3));
      assert Respond(number, s, slow) != Respond(number, s, fast);
    }
  }

  lemma LastPieces(left: nat)
    requires left > 0
    ensures Piece([1], left) == 1 && Piece([RECV], left) == if left < RECV then left else RECV
  {
  }

  // ---- the simple form ---------------------------------------------------------------------------------------

  // head: one byte at a time.  It reads the header block that read_response splits off, within its limit, and not
  // one byte of the body.
  method Head(stream: Reader) returns (r: Option<Bytes>)
    modifies stream
    ensures var blank := FindBlank(old(stream.rest), 0);
            && (r.Some? <==> blank.Some? && blank.value + 4 <= 8192)
            && (r.Some? ==> r.value == old(stream.rest)[..blank.value + 4] &&
                            stream.rest == old(stream.rest)[blank.value + 4..])
  {
    hide FindBlank;
    ghost var s := stream.rest;
    var result: Bytes := [];
    while !(|result| >= 4 && BlankAt(result, |result| - 4))
      invariant |result| <= HEAD_LIMIT && s == result + stream.rest
      invariant forall j: nat | j + 4 < |result| :: !BlankAt(s, j)
      decreases HEAD_LIMIT - |result|
    {
      if |result| >= 4 {
        assert BlankAt(s, |result| - 4) <==> BlankAt(result, |result| - 4);
      }
      if |result| >= HEAD_LIMIT {
        BlankBeyond(s, HEAD_LIMIT - 3);
        return None;
      }
      var next := Exactly(stream, 1);
      if next.None? {
        BlankBeyond(s, if |s| >= 3 then |s| - 3 else 0);
        return None;
      }
      result := result + next.value;
    }
    assert BlankAt(s, |result| - 4);
    BlankHere(s, |result| - 4);
    r := Some(result);
  }

  lemma BlankBeyond(s: Bytes, from: nat)
    requires forall j: nat | j < from :: !BlankAt(s, j)
    ensures FindBlank(s, 0).Some? ==> FindBlank(s, 0).value >= from && FindBlank(s, 0).value + 4 <= |s|
  {
  }

  lemma BlankHere(s: Bytes, i: nat)
    requires BlankAt(s, i) && forall j: nat | j < i :: !BlankAt(s, j)
    ensures FindBlank(s, 0) == Some(i)
  {
  }

  // Every response read_response returns, from whatever pieces, starts with the header block that head reads.
  lemma HeaderShared(number: Number, s: Bytes, plan: seq<nat>)
    requires Respond(number, s, plan).Some?
    ensures FindBlank(s, 0).Some?
    ensures var v, i := Respond(number, s, plan).value, FindBlank(s, 0).value;
            i + 4 <= |v| && v[..i + 4] == s[..i + 4] && FindBlank(v, 0) == Some(i)
  {
    hide FindBlank, ContentLength, Gather, Respond;
    PiecesDoNotMatter(number, s, plan);
    var v, i := Respond(number, s, plan).value, FindBlank(s, 0).value;
    SeenBlank(s, i);
    var length := ContentLength(number, s[..i]);
    if length.Length? && length.value < 0 {
      NegativeLength(number, s, plan, i, length.value);
    }
    assert |v| <= |s| && v == s[..|v|];
    BlankInPrefix(s, |v|);
  }

  // ---- a response whose pieces matter ------------------------------------------------------------------------

  // "H", "content-length:-1", a blank line and three bytes of body.
  const SHORT_RESPONSE: Bytes := [72, 13, 10] + CONTENT_LENGTH + [58, 45, 49] + [13, 10, 13, 10] + [65, 66, 67]

  lemma ShortHead()
    ensures SHORT_RESPONSE[..20] == [72] + [13, 10] + (CONTENT_LENGTH + [58] + [45, 49])
    ensures NamesLength(CONTENT_LENGTH) && 58 !in CONTENT_LENGTH && 13 !in CONTENT_LENGTH + [58] + [45, 49]
  {
  }

  lemma ShortLength(number: Number)
    requires number([45, 49]) == Some(-1)
    ensures ContentLength(number, SHORT_RESPONSE[..20]) == Length(-1)
  {
    hide Lines, Partition, LowerByte;
    var field := CONTENT_LENGTH + [58] + [45, 49];
    ShortHead();
    FirstLine([72], field);
    OneLine(field);
    FirstColon(CONTENT_LENGTH, [45, 49]);
    assert ([[72]] + [field])[1..] == [field];
  }

  lemma ShortBlank()
    ensures FindBlank(SHORT_RESPONSE, 0) == Some(20) && |SHORT_RESPONSE| == 27
  {
    hide FindBlank;
    var s := SHORT_RESPONSE;
    assert s[20] == 13 && s[21] == 10 && s[22] == 13 && s[23] == 10;
    assert forall j | 2 <= j < 20 :: s[j] != 13;
    assert s[0] == 72 && s[1] == 13 && s[3] == 99;
    BlankHere(s, 20);
  }

  // The same stream with Content-Length -1 gives different responses in different pieces.
  lemma PiecesMatterHere(number: Number)
    requires number([45, 49]) == Some(-1)
    ensures exists plan, other :: Respond(number, SHORT_RESPONSE, plan) != Respond(number, SHORT_RESPONSE, other)
  {
    hide FindBlank, ContentLength, Respond;
    ShortLength(number);
    ShortBlank();
    PiecesMatterExactly(number, SHORT_RESPONSE, 20, -1);
  }
}
