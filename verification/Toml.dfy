// The TOML strings and arrays that the server installer prints (scripts/prepare-server.py), and a reader of them that
// follows the String and Array sections of TOML v1.0.0.
module Toml {
  import opened Text

  // ---- printing --------------------------------------------------------------------------------------------

  // text.replace(what, put) for a single character.
  function Replace(text: string, what: char, put: string): string
  {
    if text == "" then "" else (if text[0] == what then put else [text[0]]) + Replace(text[1..], what, put)
  }

  function TomlString(value: string): string
  {
    "\"" + Replace(Replace(value, '\\', "\\\\"), '"', "\\\"") + "\""
  }

  function CommaJoin(parts: seq<string>): string
  {
    if parts == [] then "" else if |parts| == 1 then parts[0] else parts[0] + ", " + CommaJoin(parts[1..])
  }

  function Strings(values: seq<string>): seq<string>
  {
    seq(|values|, i requires 0 <= i < |values| => TomlString(values[i]))
  }

  function TomlArray(values: seq<string>): string
  {
    "[" + CommaJoin(Strings(values)) + "]"
  }

  // ---- reading ---------------------------------------------------------------------------------------------

  // A character that may stand for itself in a basic string.
  predicate Unescaped(c: char)
  {
    c == '\t' || (' ' <= c && c != '"' && c != '\\' && c != '\U{007F}')
  }

  predicate HexDigit(c: char)
  {
    '0' <= c <= '9' || 'a' <= c <= 'f' || 'A' <= c <= 'F'
  }

  function HexValue(c: char): nat
    requires HexDigit(c)
  {
    if c <= '9' then c as int - '0' as int
    else if c <= 'F' then c as int - 'A' as int + 10
    else c as int - 'a' as int + 10
  }

  function HexNumber(digits: string): nat
    requires forall i | 0 <= i < |digits| :: HexDigit(digits[i])
  {
    if digits == "" then 0
    else 16 * HexNumber(digits[..|digits| - 1]) + HexValue(digits[|digits| - 1])
  }

  // What has been read, and the text after it.
  datatype Read<T> = Fail | Read(value: T, rest: string)

  // A Unicode scalar value in n hexadecimal digits.
  function Scalar(text: string, n: nat): (r: Read<char>)
    ensures r.Read? ==> |r.rest| <= |text|
  {
    if |text| < n || exists i | 0 <= i < n :: !HexDigit(text[i]) then Fail
    else
      var number := HexNumber(text[..n]);
      if number < 0xD800 || 0xE000 <= number < 0x110000 then Read(number as char, text[n..]) else Fail
  }

  // The text after a backslash.
  function Escape(text: string): (r: Read<char>)
    ensures r.Read? ==> |r.rest| < |text|
  {
    if text == "" then Fail
    else
      var rest := text[1..];
      match text[0]
      case 'b' => Read('\U{0008}', rest)
      case 't' => Read('\t', rest)
      case 'n' => Read('\n', rest)
      case 'f' => Read('\U{000C}', rest)
      case 'r' => Read('\r', rest)
      case '"' => Read('"', rest)
      case '\\' => Read('\\', rest)
      case 'u' => Scalar(rest, 4)
      case 'U' => Scalar(rest, 8)
      case _ => Fail
  }

  function Prepend(c: char, r: Read<string>): Read<string>
  {
    if r.Fail? then Fail else r.(value := [c] + r.value)
  }

  // A basic string after its opening quotation mark.
  function BasicString(text: string): (r: Read<string>)
    ensures r.Read? ==> |r.rest| < |text|
    decreases |text|
  {
    if text == "" then Fail
    else if text[0] == '"' then Read("", text[1..])
    else if text[0] == '\\' then
      var e := Escape(text[1..]);
      if e.Fail? then Fail else Prepend(e.value, BasicString(e.rest))
    else if Unescaped(text[0]) then Prepend(text[0], BasicString(text[1..]))
    else Fail
  }

  // The text after a comment, from its end of line on.
  function AfterComment(text: string): (r: string)
    ensures |r| <= |text|
  {
    if text == "" then ""
    else if text[0] == '\t' || (' ' <= text[0] && text[0] != '\U{007F}') then AfterComment(text[1..])
    else text
  }

  predicate Newline(text: string)
  {
    "\n" <= text || "\r\n" <= text
  }

  // The text after white space, newlines and comments.
  function Skip(text: string): (r: Read<()>)
    ensures r.Read? ==> |r.rest| <= |text|
    decreases |text|
  {
    if text == "" then Read((), text)
    else if text[0] in " \t\n" then Skip(text[1..])
    else if Newline(text) then Skip(text[2..])
    else if text[0] == '#' then
      var rest := AfterComment(text[1..]);
      if Newline(rest) then Skip(rest) else Fail
    else Read((), text)
  }

  // The basic strings of an array, after its opening bracket or one of its commas.
  function Elements(text: string): (r: Read<seq<string>>)
    ensures r.Read? ==> |r.rest| <= |text|
    decreases |text|
  {
    var start := Skip(text);
    if start.Fail? || start.rest == "" then Fail
    else if start.rest[0] == ']' then Read([], start.rest[1..])
    else if start.rest[0] != '"' || "\"\"\"" <= start.rest then Fail
    else
      var value := BasicString(start.rest[1..]);
      if value.Fail? then Fail
      else
        var end := Skip(value.rest);
        if end.Fail? || end.rest == "" then Fail
        else if end.rest[0] == ']' then Read([value.value], end.rest[1..])
        else if end.rest[0] != ',' then Fail
        else
          var more := Elements(end.rest[1..]);
          if more.Fail? then Fail else more.(value := [value.value] + more.value)
  }

  // A whole text that is one array of basic strings.
  function Parse(text: string): Option<seq<string>>
  {
    if !("[" <= text) then None
    else
      var r := Elements(text[1..]);
      if r.Read? && r.rest == "" then Some(r.value) else None
  }

  // ---- the printed text reads back -------------------------------------------------------------------------

  // One pass over the characters.
  function Escaped(value: string): string
  {
    if value == "" then ""
    else (if value[0] == '\\' || value[0] == '"' then ['\\', value[0]] else [value[0]]) + Escaped(value[1..])
  }

  lemma {:induction false} ReplaceJoins(left: string, right: string, what: char, put: string)
    ensures Replace(left + right, what, put) == Replace(left, what, put) + Replace(right, what, put)
  {
    if left == "" {
      assert left + right == right;
    } else {
      ReplaceJoins(left[1..], right, what, put);
      assert (left + right)[1..] == left[1..] + right;
      var first := if left[0] == what then put else [left[0]];
      Regroup(first, Replace(left[1..], what, put), Replace(right, what, put));
    }
  }

  lemma Regroup<T>(a: seq<T>, b: seq<T>, c: seq<T>)
    ensures a + (b + c) == a + b + c
  {
  }

  // The two ordered replacements are one escape of each character.
  lemma {:induction false} OnePass(value: string)
    ensures Replace(Replace(value, '\\', "\\\\"), '"', "\\\"") == Escaped(value)
  {
    if value != "" {
      OnePass(value[1..]);
      var first := if value[0] == '\\' then "\\\\" else [value[0]];
      var others := Replace(value[1..], '\\', "\\\\");
      ReplaceJoins(first, others, '"', "\\\"");
      assert Replace([], '"', "\\\"") == "";
      assert first[1..] == if value[0] == '\\' then "\\" else "";
      assert Replace("\\", '"', "\\\"") == "\\";
    }
  }

  // Nothing but tab among the characters U+0000 to U+001F, and no U+007F.
  predicate Clean(value: string)
  {
    forall i | 0 <= i < |value| :: value[i] == '\t' || (' ' <= value[i] && value[i] != '\U{007F}')
  }

  lemma ReadEscaped(c: char, others: string)
    requires c == '\\' || c == '"'
    ensures BasicString(['\\', c] + others) == Prepend(c, BasicString(others))
  {
    var text := ['\\', c] + others;
    assert text[1..][1..] == others;
    assert Escape(text[1..]) == Read(c, others);
  }

  lemma ReadPlain(c: char, others: string)
    requires c != '\\' && c != '"'
    ensures BasicString([c] + others) == if Unescaped(c) then Prepend(c, BasicString(others)) else Fail
  {
    assert ([c] + others)[1..] == others;
  }

  lemma ReadEnd(rest: string)
    ensures BasicString("\"" + rest) == Read("", rest)
  {
    assert ("\"" + rest)[1..] == rest;
  }

  lemma {:induction false} StringReadBack(value: string, rest: string)
    ensures BasicString(Escaped(value) + "\"" + rest) == if Clean(value) then Read(value, rest) else Fail
  {
    hide BasicString, Clean;
    var text := Escaped(value) + "\"" + rest;
    if value == "" {
      assert text == "\"" + rest;
      ReadEnd(rest);
      EmptyClean();
    } else {
      StringReadBack(value[1..], rest);
      CleanParts(value);
      var others := Escaped(value[1..]) + "\"" + rest;
      assert value == [value[0]] + value[1..];
      if value[0] == '\\' || value[0] == '"' {
        assert text == ['\\', value[0]] + others;
        ReadEscaped(value[0], others);
      } else {
        assert text == [value[0]] + others;
        ReadPlain(value[0], others);
      }
    }
  }

  lemma EmptyClean()
    ensures Clean("")
  {
  }

  lemma CleanParts(value: string)
    requires value != ""
    ensures Clean(value) <==> Clean([value[0]]) && Clean(value[1..])
    ensures Clean([value[0]]) <==> Unescaped(value[0]) || value[0] == '"' || value[0] == '\\'
  {
    assert [value[0]][0] == value[0];
    if Clean([value[0]]) && Clean(value[1..]) {
      forall i | 0 <= i < |value|
        ensures value[i] == '\t' || (' ' <= value[i] && value[i] != '\U{007F}')
      {
        if i > 0 {
          assert value[1..][i - 1] == value[i];
        }
      }
    }
  }

  predicate AllClean(values: seq<string>)
  {
    forall i | 0 <= i < |values| :: Clean(values[i])
  }

  // The printed array after its opening bracket, one element at a time.
  function Items(values: seq<string>): string
  {
    if values == [] then "]"
    else "\"" + Escaped(values[0]) + "\"" + if |values| == 1 then "]" else ", " + Items(values[1..])
  }

  lemma {:induction false} PrintedItems(values: seq<string>)
    ensures CommaJoin(Strings(values)) + "]" == Items(values)
  {
    hide Escaped, Replace;
    if values != [] {
      OnePass(values[0]);
      PrintedItems(values[1..]);
      assert Strings(values)[1..] == Strings(values[1..]);
      if |values| > 1 {
        Regroup(TomlString(values[0]) + ", ", CommaJoin(Strings(values[1..])), "]");
        Regroup(TomlString(values[0]), ", ", Items(values[1..]));
      }
    }
  }

  // One element and what follows it, when that is the end of the array or a comma.
  lemma FirstReadBack(value: string, tail: string)
    requires "]" <= tail || "," <= tail
    ensures var text := "\"" + (Escaped(value) + "\"" + tail);
            Elements(text) ==
              if !Clean(value) then Fail
              else if tail[0] == ']' then Read([value], tail[1..])
              else var more := Elements(tail[1..]); if more.Fail? then Fail else more.(value := [value] + more.value)
  {
    var text := "\"" + (Escaped(value) + "\"" + tail);
    StringReadBack(value, tail);
    assert text[1..] == Escaped(value) + "\"" + tail;
    assert Skip(text) == Read((), text);
    assert Skip(tail) == Read((), tail);
    assert !("\"\"\"" <= text) by {
      if value == "" {
        assert text[2] == tail[0];
      } else {
        assert text[1] == Escaped(value)[0];
      }
    }
  }

  lemma SpaceSkipped(text: string)
    ensures Elements(" " + text) == Elements(text)
  {
  }

  lemma EmptyArray()
    ensures Elements("]") == Read([], "")
  {
  }

  lemma {:induction false} ItemsReadBack(values: seq<string>)
    ensures Elements(Items(values)) == if AllClean(values) then Read(values, "") else Fail
  {
    hide Elements, Clean, AllClean, Escaped;
    if values == [] {
      NothingUnclean();
      EmptyArray();
    } else {
      var others := values[1..];
      AllCleanParts(values);
      ItemsReadBack(others);
      var tail := if |values| == 1 then "]" else ", " + Items(others);
      FirstReadBack(values[0], tail);
      assert Items(values) == "\"" + (Escaped(values[0]) + "\"" + tail);
      if |values| == 1 {
        assert others == [] && values == [values[0]] && tail[1..] == "";
        NothingUnclean();
      } else {
        assert values == [values[0]] + others && tail[1..] == " " + Items(others);
        SpaceSkipped(Items(others));
      }
    }
  }

  lemma NothingUnclean()
    ensures AllClean([])
  {
  }

  lemma AllCleanParts(values: seq<string>)
    requires values != []
    ensures AllClean(values) <==> Clean(values[0]) && AllClean(values[1..])
  {
  }

  // Reading a printed array gives exactly the printed list when no string holds a control character other than tab, and
  // nothing at all otherwise.
  lemma ArrayReadBack(values: seq<string>)
    ensures Parse(TomlArray(values)) == if AllClean(values) then Some(values) else None
  {
    hide Elements, Items, CommaJoin, Strings, AllClean;
    PrintedItems(values);
    ItemsReadBack(values);
    assert TomlArray(values) == "[" + (CommaJoin(Strings(values)) + "]");
    assert ("[" + Items(values))[1..] == Items(values);
  }

  // A printed line break cannot be read.
  lemma LineBreakUnreadable()
    ensures Parse(TomlArray(["a\nb"])).None?
  {
    ArrayReadBack(["a\nb"]);
    assert "a\nb"[1] == '\n';
    assert !Clean("a\nb") && ["a\nb"][0] == "a\nb";
  }
}
