// FastCGI name-value pairs (section 3.4 of the FastCGI Specification): the checked parser of
// scripts/smoke_php_transport.py and the unchecked one of scripts/smoke_request_correlation.py.
module NameValue {
  import opened Text

  const WIDE_LIMIT: nat := 0x8000_0000

  // A name and a value, each with its length in one byte or in four.
  datatype Pair = Pair(wideName: bool, wideValue: bool, name: Bytes, value: Bytes)

  // UTF-8 decoding, as the interpreter provides it.
  type Decoder = Bytes -> Option<string>

  // ---- the encoding ------------------------------------------------------------------------------------------

  predicate LengthFits(wide: bool, n: nat)
  {
    n < if wide then WIDE_LIMIT else 128
  }

  function LengthBytes(wide: bool, n: nat): Bytes
    requires LengthFits(wide, n)
  {
    if wide then [128 + n / 0x100_0000, n / 0x1_0000 % 256, n / 256 % 256, n % 256] else [n]
  }

  predicate PairFits(p: Pair)
  {
    LengthFits(p.wideName, |p.name|) && LengthFits(p.wideValue, |p.value|)
  }

  function EncodePair(p: Pair): (bytes: Bytes)
    requires PairFits(p)
    ensures |bytes| >= 2
  {
    LengthBytes(p.wideName, |p.name|) + LengthBytes(p.wideValue, |p.value|) + p.name + p.value
  }

  ghost predicate AllFit(ps: seq<Pair>)
  {
    forall i | 0 <= i < |ps| :: PairFits(ps[i])
  }

  function Encode(ps: seq<Pair>): Bytes
    requires AllFit(ps)
  {
    if ps == [] then [] else EncodePair(ps[0]) + Encode(ps[1..])
  }

  ghost predicate AllDecode(decode: Decoder, ps: seq<Pair>)
  {
    forall i | 0 <= i < |ps| :: decode(ps[i].name).Some? && decode(ps[i].value).Some?
  }

  // The last value given for each name.
  ghost function LastValues(decode: Decoder, ps: seq<Pair>): map<string, string>
    requires AllDecode(decode, ps)
  {
    if ps == [] then map[]
    else
      var p := ps[|ps| - 1];
      LastValues(decode, ps[..|ps| - 1])[decode(p.name).value := decode(p.value).value]
  }

  // data is an encoding of pairs of decodable text that give these values.
  ghost predicate Denotes(decode: Decoder, data: Bytes, values: map<string, string>)
  {
    exists ps :: AllFit(ps) && Encode(ps) == data && AllDecode(decode, ps) && LastValues(decode, ps) == values
  }

  // ---- reading one pair --------------------------------------------------------------------------------------

  // int.from_bytes(bytes, "big") & 0x7fffffff
  function Masked(bytes: Bytes): nat
  {
    BigEndian(bytes) % WIDE_LIMIT
  }

  function BigEndian(bytes: Bytes): nat
  {
    if bytes == [] then 0 else BigEndian(bytes[..|bytes| - 1]) * 256 + bytes[|bytes| - 1]
  }

  function Width(first: Byte): nat
  {
    if first >= 128 then 4 else 1
  }

  // A length and the offset behind it, or None if it is missing or cut off.
  function ReadLength(data: Bytes, offset: nat): (r: Option<(nat, nat)>)
    ensures r.Some? ==> offset < r.value.1 <= |data|
  {
    if offset >= |data| || offset + Width(data[offset]) > |data| then None
    else Some((Masked(data[offset..offset + Width(data[offset])]), offset + Width(data[offset])))
  }

  function ReadPair(data: Bytes, offset: nat): (r: Option<(Pair, nat)>)
    ensures r.Some? ==> offset < r.value.1 <= |data|
  {
    var name := ReadLength(data, offset);
    if name.None? then None
    else
      var value := ReadLength(data, name.value.1);
      if value.None? || value.value.1 + name.value.0 + value.value.0 > |data| then None
      else
        var start, middle, end := value.value.1, value.value.1 + name.value.0,
                                  value.value.1 + name.value.0 + value.value.0;
        Some((Pair(data[offset] >= 128, data[name.value.1] >= 128, data[start..middle], data[middle..end]), end))
  }

  function ReadAll(data: Bytes, offset: nat): Option<seq<Pair>>
    requires offset <= |data|
    decreases |data| - offset
  {
    if offset == |data| then Some([])
    else
      var first := ReadPair(data, offset);
      if first.None? then None
      else
        var rest := ReadAll(data, first.value.1);
        if rest.None? then None else Some([first.value.0] + rest.value)
  }

  // ---- lengths are read back ---------------------------------------------------------------------------------

  lemma MaskedFour(a: Byte, b: Byte, c: Byte, d: Byte)
    requires a >= 128
    ensures Masked([a, b, c, d]) == (a - 128) * 0x100_0000 + b * 0x1_0000 + c * 256 + d < WIDE_LIMIT
  {
    assert BigEndian([a]) == a by {
      assert [a][..0] == [];
    }
    assert [a, b][..1] == [a] && [a, b, c][..2] == [a, b] && [a, b, c, d][..3] == [a, b, c];
    assert BigEndian([a, b]) == a * 256 + b;
    assert BigEndian([a, b, c]) == (a * 256 + b) * 256 + c;
    assert BigEndian([a, b, c, d]) == a * 0x100_0000 + b * 0x1_0000 + c * 256 + d;
  }

  lemma MaskedOne(a: Byte)
    requires a < 128
    ensures Masked([a]) == a
  {
    assert [a][..0] == [];
    assert BigEndian([a]) == a;
  }

  lemma Digits(a: nat, b: Byte, c: Byte, d: Byte, n: nat)
    requires n == a * 0x100_0000 + b * 0x1_0000 + c * 256 + d
    ensures n / 0x100_0000 == a && n / 0x1_0000 % 256 == b && n / 256 % 256 == c && n % 256 == d
  {
    assert n / 0x1_0000 == a * 256 + b;
    assert n / 256 == (a * 256 + b) * 256 + c;
  }

  lemma Undigits(n: nat)
    ensures n == n / 0x100_0000 * 0x100_0000 + n / 0x1_0000 % 256 * 0x1_0000 + n / 256 % 256 * 256 + n % 256
  {
    assert n / 0x100_0000 == n / 0x1_0000 / 256 && n / 0x1_0000 == n / 256 / 256;
  }

  lemma LengthReadBack(before: Bytes, wide: bool, n: nat, after: Bytes)
    requires LengthFits(wide, n)
    ensures var data := before + LengthBytes(wide, n) + after;
            && ReadLength(data, |before|) == Some((n, |before| + |LengthBytes(wide, n)|))
            && (data[|before|] >= 128 <==> wide)
  {
    hide Masked;
    var bytes := LengthBytes(wide, n);
    var data := before + bytes + after;
    assert data[|before|] == bytes[0];
    assert data[|before|..|before| + |bytes|] == bytes;
    if wide {
      assert bytes == [bytes[0], bytes[1], bytes[2], bytes[3]];
      MaskedFour(bytes[0], bytes[1], bytes[2], bytes[3]);
      Undigits(n);
    } else {
      MaskedOne(bytes[0]);
    }
  }

  // What ReadLength finds is the encoding of the length it returns.
  lemma LengthFound(data: Bytes, offset: nat)
    requires ReadLength(data, offset).Some?
    ensures var r := ReadLength(data, offset).value; var wide := data[offset] >= 128;
            LengthFits(wide, r.0) && LengthBytes(wide, r.0) == data[offset..r.1]
  {
    hide Masked;
    if data[offset] >= 128 {
      var a, b, c, d := data[offset], data[offset + 1], data[offset + 2], data[offset + 3];
      assert data[offset..offset + 4] == [a, b, c, d];
      MaskedFour(a, b, c, d);
      Digits(a - 128, b, c, d, Masked([a, b, c, d]));
    } else {
      assert data[offset..offset + 1] == [data[offset]];
      MaskedOne(data[offset]);
    }
  }

  // ---- pairs are read back -----------------------------------------------------------------------------------

  lemma PairReadBack(before: Bytes, p: Pair, after: Bytes)
    requires PairFits(p)
    ensures ReadPair(before + EncodePair(p) + after, |before|) == Some((p, |before| + |EncodePair(p)|))
  {
    hide ReadLength, LengthBytes, LengthFits;
    var n, v := LengthBytes(p.wideName, |p.name|), LengthBytes(p.wideValue, |p.value|);
    var data := before + EncodePair(p) + after;
    Regroup(before, n, v, p.name, p.value, after);
    LengthReadBack(before, p.wideName, |p.name|, v + p.name + p.value + after);
    LengthReadBack(before + n, p.wideValue, |p.value|, p.name + p.value + after);
    Slices(before + n + v, p.name, p.value, after);
  }

  lemma Regroup<T>(a: seq<T>, b: seq<T>, c: seq<T>, d: seq<T>, e: seq<T>, f: seq<T>)
    ensures a + (b + c + d + e) + f == a + b + (c + d + e + f) == (a + b) + c + (d + e + f) == a + b + c + d + e + f
  {
  }

  lemma Slices<T>(a: seq<T>, b: seq<T>, c: seq<T>, d: seq<T>)
    ensures var data := a + b + c + d; var middle := |a| + |b|;
            data[|a|..middle] == b && data[middle..middle + |c|] == c
  {
  }

  lemma PairFound(data: Bytes, offset: nat)
    requires ReadPair(data, offset).Some?
    ensures PairFits(ReadPair(data, offset).value.0)
    ensures EncodePair(ReadPair(data, offset).value.0) == data[offset..ReadPair(data, offset).value.1]
  {
    hide LengthBytes, ReadLength, LengthFits;
    var name := ReadLength(data, offset).value;
    var value := ReadLength(data, name.1).value;
    LengthFound(data, offset);
    LengthFound(data, name.1);
    var start, end := value.1, ReadPair(data, offset).value.1;
    CutFour(data, offset, name.1, start, start + name.0, end);
  }

  lemma CutFour<T>(data: seq<T>, a: nat, b: nat, c: nat, d: nat, e: nat)
    requires a <= b <= c <= d <= e <= |data|
    ensures data[a..e] == data[a..b] + data[b..c] + data[c..d] + data[d..e]
  {
    assert data[a..c] == data[a..b] + data[b..c];
    assert data[a..d] == data[a..c] + data[c..d];
    assert data[a..e] == data[a..d] + data[d..e];
  }

  // Reading is sound ...
  lemma {:induction false} ReadAllSound(data: Bytes, offset: nat)
    requires offset <= |data| && ReadAll(data, offset).Some?
    ensures AllFit(ReadAll(data, offset).value) && Encode(ReadAll(data, offset).value) == data[offset..]
    decreases |data| - offset
  {
    hide ReadPair, EncodePair;
    if offset < |data| {
      var first := ReadPair(data, offset).value;
      PairFound(data, offset);
      ReadAllSound(data, first.1);
      var ps := ReadAll(data, offset).value;
      assert ps[1..] == ReadAll(data, first.1).value;
      assert data[offset..] == data[offset..first.1] + data[first.1..];
    }
  }

  // ... and complete: every encoding is read back, so it encodes one list of pairs only.
  lemma {:induction false} ReadAllComplete(before: Bytes, ps: seq<Pair>)
    requires AllFit(ps)
    ensures ReadAll(before + Encode(ps), |before|) == Some(ps)
    decreases |ps|
  {
    hide ReadPair, EncodePair;
    var data := before + Encode(ps);
    if ps != [] {
      var p := ps[0];
      var rest := Encode(ps[1..]);
      PairReadBack(before, p, rest);
      assert data == before + EncodePair(p) + rest == (before + EncodePair(p)) + rest;
      ReadAllComplete(before + EncodePair(p), ps[1..]);
      assert [p] + ps[1..] == ps;
    }
  }

  // What the whole input denotes is settled by reading it.
  lemma DenotesRead(decode: Decoder, data: Bytes, values: map<string, string>)
    ensures Denotes(decode, data, values) <==>
              var r := ReadAll(data, 0);
              r.Some? && AllDecode(decode, r.value) && LastValues(decode, r.value) == values
  {
    hide ReadAll, Encode, LastValues;
    if Denotes(decode, data, values) {
      var ps :| AllFit(ps) && Encode(ps) == data && AllDecode(decode, ps) && LastValues(decode, ps) == values;
      ReadAllComplete([], ps);
      assert [] + data == data;
    }
    if ReadAll(data, 0).Some? {
      ReadAllSound(data, 0);
      assert data[0..] == data;
    }
  }

  // ---- the checked parser ------------------------------------------------------------------------------------

  // Reading from the start is reading the pairs before an offset and then the rest.
  ghost predicate ReadUpTo(data: Bytes, offset: nat, ps: seq<Pair>)
  {
    && offset <= |data|
    && ReadAll(data, 0) == match ReadAll(data, offset) case None => None case Some(rest) => Some(ps + rest)
  }

  lemma ReadOneMore(data: Bytes, offset: nat, ps: seq<Pair>)
    requires ReadUpTo(data, offset, ps) && offset < |data| && ReadPair(data, offset).Some?
    ensures ReadUpTo(data, ReadPair(data, offset).value.1, ps + [ReadPair(data, offset).value.0])
  {
    hide ReadPair;
    var first := ReadPair(data, offset).value;
    var rest := ReadAll(data, first.1);
    if rest.Some? {
      assert ps + ([first.0] + rest.value) == ps + [first.0] + rest.value;
    }
  }

  lemma LastValuesOneMore(decode: Decoder, ps: seq<Pair>, p: Pair)
    requires AllDecode(decode, ps) && decode(p.name).Some? && decode(p.value).Some?
    ensures AllDecode(decode, ps + [p])
    ensures LastValues(decode, ps + [p]) == LastValues(decode, ps)[decode(p.name).value := decode(p.value).value]
  {
  }

  // parameters: accepts exactly the encodings of decodable pairs, and returns the last value for each name.
  method Parameters(decode: Decoder, data: Bytes) returns (r: Option<map<string, string>>)
    ensures r.Some? ==> Denotes(decode, data, r.value)
    ensures forall values :: Denotes(decode, data, values) ==> r == Some(values)
  {
    hide ReadAll, Denotes, LastValues, AllDecode, Masked;
    var offset := 0;
    var result: map<string, string> := map[];
    ghost var ps: seq<Pair> := [];
    Beginning(decode, data);
    forall values {
      DenotesRead(decode, data, values);
    }
    while offset < |data|
      invariant ReadUpTo(data, offset, ps) && AllDecode(decode, ps) && result == LastValues(decode, ps)
    {
      var begin := offset;
      var lengths: seq<nat> := [];
      for k := 0 to 2
        invariant |lengths| == k
        invariant k == 0 ==> offset == begin
        invariant k == 1 ==> ReadLength(data, begin) == Some((lengths[0], offset))
        invariant k == 2 ==> ReadLength(data, begin).Some? && ReadLength(data, begin).value.0 == lengths[0]
                             && ReadLength(data, ReadLength(data, begin).value.1) == Some((lengths[1], offset))
      {
        if offset >= |data| {
          NothingThere(data, begin);
          return None;
        }
        var width := if data[offset] >= 128 then 4 else 1;
        if offset + width > |data| {
          NothingThere(data, begin);
          return None;
        }
        lengths := lengths + [Masked(data[offset..offset + width])];
        offset := offset + width;
      }
      var name, value := lengths[0], lengths[1];
      if offset + name + value > |data| {
        NothingThere(data, begin);
        return None;
      }
      ghost var p := ReadPair(data, begin).value.0;
      ReadOneMore(data, begin, ps);
      var key := decode(data[offset..offset + name]);
      var text := decode(data[offset + name..offset + name + value]);
      if key.None? || text.None? {
        Undecodable(decode, data, offset + name + value, ps, p);
        return None;
      }
      LastValuesOneMore(decode, ps, p);
      result := result[key.value := text.value];
      offset := offset + name + value;
      ps := ps + [p];
    }
    AtTheEnd(data, ps);
    return Some(result);
  }

  lemma Beginning(decode: Decoder, data: Bytes)
    ensures ReadUpTo(data, 0, []) && AllDecode(decode, []) && LastValues(decode, []) == map[]
  {
    var r := ReadAll(data, 0);
    if r.Some? {
      assert [] + r.value == r.value;
    }
  }

  lemma NothingThere(data: Bytes, offset: nat)
    requires offset < |data| && ReadPair(data, offset).None?
    ensures ReadAll(data, offset).None?
  {
  }

  lemma AtTheEnd(data: Bytes, ps: seq<Pair>)
    requires ReadUpTo(data, |data|, ps)
    ensures ReadAll(data, 0) == Some(ps)
  {
    assert ps + [] == ps;
  }

  lemma Undecodable(decode: Decoder, data: Bytes, offset: nat, ps: seq<Pair>, p: Pair)
    requires ReadUpTo(data, offset, ps + [p]) && (decode(p.name).None? || decode(p.value).None?)
    ensures ReadAll(data, 0).Some? ==> !AllDecode(decode, ReadAll(data, 0).value)
  {
    hide ReadAll;
    if ReadAll(data, 0).Some? {
      assert ReadAll(data, 0).value[|ps|] == p;
    }
  }

  // ---- the unchecked parser ----------------------------------------------------------------------------------

  // data[low:high], which never fails.
  function Slice(data: Bytes, low: nat, high: nat): Bytes
    requires low <= high
  {
    data[if low < |data| then low else |data|..if high < |data| then high else |data|]
  }

  // A length read without checking that all of it is there; None is the failing index.
  function LooseLength(data: Bytes, offset: nat): (r: Option<(nat, nat)>)
    ensures r.Some? ==> offset < |data| && offset < r.value.1
  {
    if offset >= |data| then None
    else if data[offset] >= 128 then Some((Masked(Slice(data, offset, offset + 4)), offset + 4))
    else Some((data[offset], offset + 1))
  }

  // The map built so far and the offset reached when the loop ends.
  function Loose(decode: Decoder, data: Bytes, offset: nat, result: map<string, string>):
    Option<(map<string, string>, nat)>
    decreases |data| - offset
  {
    if offset >= |data| then Some((result, offset))
    else
      var name := LooseLength(data, offset);
      if name.None? then None
      else
        var value := LooseLength(data, name.value.1);
        if value.None? then None
        else
          var start := value.value.1;
          var key := decode(Slice(data, start, start + name.value.0));
          var text := decode(Slice(data, start + name.value.0, start + name.value.0 + value.value.0));
          if key.None? || text.None? then None
          else Loose(decode, data, start + name.value.0 + value.value.0, result[key.value := text.value])
  }

  // fcgi_params; `end` is the value of its offset when it returns.
  method FcgiParams(decode: Decoder, data: Bytes) returns (r: Option<map<string, string>>, end: nat)
    ensures r.Some? ==> Loose(decode, data, 0, map[]) == Some((r.value, end))
    ensures r.None? ==> Loose(decode, data, 0, map[]).None?
  {
    hide Masked, Slice;
    r, end := None, 0;
    var result: map<string, string> := map[];
    while end < |data|
      invariant Loose(decode, data, 0, map[]) == Loose(decode, data, end, result)
    {
      var begin := end;
      var lengths: seq<nat> := [];
      for k := 0 to 2
        invariant |lengths| == k && begin <= end
        invariant k == 0 ==> end == begin
        invariant k == 1 ==> LooseLength(data, begin) == Some((lengths[0], end))
        invariant k == 2 ==> LooseLength(data, begin).Some? && LooseLength(data, begin).value.0 == lengths[0]
                             && LooseLength(data, LooseLength(data, begin).value.1) == Some((lengths[1], end))
      {
        if end >= |data| { return None, end; }
        var size: nat := data[end];
        if size >= 128 {
          size := Masked(Slice(data, end, end + 4));
          end := end + 4;
        } else {
          end := end + 1;
        }
        lengths := lengths + [size];
      }
      var name, value := lengths[0], lengths[1];
      var key := decode(Slice(data, end, end + name));
      if key.None? { return None, end; }
      var text := decode(Slice(data, end + name, end + name + value));
      if text.None? { return None, end; }
      result := result[key.value := text.value];
      end := end + name + value;
    }
    r := Some(result);
  }

  lemma LooseIsChecked(data: Bytes, offset: nat)
    ensures ReadLength(data, offset).Some? ==> LooseLength(data, offset) == ReadLength(data, offset)
    ensures ReadLength(data, offset).None? && LooseLength(data, offset).Some? ==>
              LooseLength(data, offset).value.1 > |data|
  {
    if offset < |data| {
      if data[offset] < 128 {
        MaskedOne(data[offset]);
        assert data[offset..offset + 1] == [data[offset]];
      }
    }
  }

  // Once past the end the unchecked parser never comes back.
  lemma LoosePast(decode: Decoder, data: Bytes, offset: nat, result: map<string, string>)
    requires offset > |data|
    ensures Loose(decode, data, offset, result) == Some((result, offset))
  {
  }

  // On one pair: either both parsers read it alike, or the checked one refuses and the other overshoots or fails.
  lemma LoosePair(data: Bytes, offset: nat, name: (nat, nat), value: (nat, nat))
    requires offset < |data| && LooseLength(data, offset) == Some(name) && LooseLength(data, name.1) == Some(value)
    ensures ReadPair(data, offset).None? ==> value.1 + name.0 + value.0 > |data|
    ensures ReadPair(data, offset).Some? ==>
              var p := ReadPair(data, offset).value;
              && p.1 == value.1 + name.0 + value.0
              && Slice(data, value.1, value.1 + name.0) == p.0.name
              && Slice(data, value.1 + name.0, p.1) == p.0.value
  {
    hide Masked;
    LooseIsChecked(data, offset);
    LooseIsChecked(data, name.1);
  }

  lemma LooseNoPair(data: Bytes, offset: nat)
    requires offset < |data|
    requires LooseLength(data, offset).None? || LooseLength(data, LooseLength(data, offset).value.1).None?
    ensures ReadPair(data, offset).None?
  {
  }

  lemma {:induction false} LooseFrom(decode: Decoder, data: Bytes, offset: nat, ps: seq<Pair>,
                                     result: map<string, string>)
    requires ReadUpTo(data, offset, ps) && AllDecode(decode, ps) && result == LastValues(decode, ps)
    ensures forall values :: Loose(decode, data, offset, result) == Some((values, |data|)) <==>
              var r := ReadAll(data, 0); r.Some? && AllDecode(decode, r.value) && LastValues(decode, r.value) == values
    decreases |data| - offset
  {
    hide ReadAll, LastValues, AllDecode, LooseLength, ReadPair, Slice;
    if offset == |data| {
      AtTheEnd(data, ps);
    } else {
      var name := LooseLength(data, offset);
      if name.None? || LooseLength(data, name.value.1).None? {
        LooseNoPair(data, offset);
        NothingThere(data, offset);
      } else {
        var value := LooseLength(data, name.value.1).value;
        var end := value.1 + name.value.0 + value.0;
        LoosePair(data, offset, name.value, value);
        var key := decode(Slice(data, value.1, value.1 + name.value.0));
        var text := decode(Slice(data, value.1 + name.value.0, end));
        if ReadPair(data, offset).None? {
          NothingThere(data, offset);
          if key.Some? && text.Some? {
            LoosePast(decode, data, end, result[key.value := text.value]);
          }
        } else {
          var p := ReadPair(data, offset).value.0;
          ReadOneMore(data, offset, ps);
          if key.None? || text.None? {
            Undecodable(decode, data, end, ps, p);
          } else {
            LastValuesOneMore(decode, ps, p);
            LooseFrom(decode, data, end, ps + [p], result[key.value := text.value]);
          }
        }
      }
    }
  }

  // The two parsers agree: the unchecked one ends exactly at the end of the input, with the same values, on exactly
  // the inputs the checked one accepts.
  lemma ParsersAgree(decode: Decoder, data: Bytes, values: map<string, string>)
    ensures Loose(decode, data, 0, map[]) == Some((values, |data|)) <==> Denotes(decode, data, values)
  {
    hide Loose, ReadAll, LastValues, AllDecode, Denotes;
    Beginning(decode, data);
    LooseFrom(decode, data, 0, [], map[]);
    DenotesRead(decode, data, values);
  }

  // ---- what only the unchecked parser accepts ----------------------------------------------------------------

  // A pair begins here whose two lengths begin inside the data, which runs past the end, and whose name and value, as
  // far as they are there, decode.
  ghost predicate CutAt(decode: Decoder, data: Bytes, offset: nat)
  {
    && LooseLength(data, offset).Some?
    && var name := LooseLength(data, offset).value;
       && LooseLength(data, name.1).Some?
       && var value := LooseLength(data, name.1).value;
          && value.1 + name.0 + value.0 > |data|
          && decode(Slice(data, value.1, value.1 + name.0)).Some?
          && decode(Slice(data, value.1 + name.0, value.1 + name.0 + value.0)).Some?
  }

  // From here on there are whole decodable pairs and then one that is cut.
  ghost predicate EndsCut(decode: Decoder, data: Bytes, offset: nat)
    decreases |data| - offset
  {
    && offset < |data|
    && match ReadPair(data, offset)
       case None => CutAt(decode, data, offset)
       case Some(p) => decode(p.0.name).Some? && decode(p.0.value).Some? && EndsCut(decode, data, p.1)
  }

  lemma {:induction false} OvershootsExactly(decode: Decoder, data: Bytes, offset: nat, result: map<string, string>)
    requires offset <= |data|
    ensures var r := Loose(decode, data, offset, result);
            EndsCut(decode, data, offset) <==> r.Some? && r.value.1 > |data|
    decreases |data| - offset
  {
    hide LooseLength, ReadPair, Slice;
    if offset < |data| {
      var name := LooseLength(data, offset);
      if name.None? || LooseLength(data, name.value.1).None? {
        LooseNoPair(data, offset);
      } else {
        var value := LooseLength(data, name.value.1).value;
        var end := value.1 + name.value.0 + value.0;
        LoosePair(data, offset, name.value, value);
        var key := decode(Slice(data, value.1, value.1 + name.value.0));
        var text := decode(Slice(data, value.1 + name.value.0, end));
        if key.Some? && text.Some? {
          if ReadPair(data, offset).None? {
            LoosePast(decode, data, end, result[key.value := text.value]);
          } else {
            OvershootsExactly(decode, data, end, result[key.value := text.value]);
          }
        }
      }
    }
  }

  // The unchecked parser accepts what the checked one accepts, and besides exactly the inputs that end in a cut pair.
  lemma AcceptsExactly(decode: Decoder, data: Bytes)
    ensures Loose(decode, data, 0, map[]).Some? <==>
              (exists values :: Denotes(decode, data, values)) || EndsCut(decode, data, 0)
    ensures EndsCut(decode, data, 0) ==> forall values :: !Denotes(decode, data, values)
  {
    hide Loose, Denotes, EndsCut;
    OvershootsExactly(decode, data, 0, map[]);
    forall values
      ensures Loose(decode, data, 0, map[]) == Some((values, |data|)) <==> Denotes(decode, data, values)
    {
      ParsersAgree(decode, data, values);
    }
    NeverShort(decode, data, 0, map[]);
    var r := Loose(decode, data, 0, map[]);
    if r.Some? && r.value.1 == |data| {
      assert Denotes(decode, data, r.value.0);
    }
  }

  lemma {:induction false} NeverShort(decode: Decoder, data: Bytes, offset: nat, result: map<string, string>)
    ensures var r := Loose(decode, data, offset, result); r.Some? ==> r.value.1 >= |data|
    decreases |data| - offset
  {
    hide Slice, Masked;
    if offset < |data| && LooseLength(data, offset).Some? {
      var name := LooseLength(data, offset).value;
      if LooseLength(data, name.1).Some? {
        var value := LooseLength(data, name.1).value;
        var end := value.1 + name.0 + value.0;
        var key, text := decode(Slice(data, value.1, value.1 + name.0)), decode(Slice(data, value.1 + name.0, end));
        if key.Some? && text.Some? {
          NeverShort(decode, data, end, result[key.value := text.value]);
        }
      }
    }
  }

  // Such an input: a value cut off after two of its five bytes is returned as if it were whole.
  lemma TruncatedValueAccepted(decode: Decoder)
    requires decode([65]) == Some("A") && decode([66, 67]) == Some("BC")
    ensures Loose(decode, [1, 5, 65, 66, 67], 0, map[]) == Some((map["A" := "BC"], 8))
    ensures forall values :: !Denotes(decode, [1, 5, 65, 66, 67], values)
  {
    var data: Bytes := [1, 5, 65, 66, 67];
    assert LooseLength(data, 0) == Some((1, 1)) && LooseLength(data, 1) == Some((5, 2));
    assert Slice(data, 2, 3) == [65] && Slice(data, 3, 8) == [66, 67];
    LoosePast(decode, data, 8, map["A" := "BC"]);
    forall values
      ensures !Denotes(decode, data, values)
    {
      ParsersAgree(decode, data, values);
    }
  }
}
