// Bytes, optional values and slash-separated names, shared by the other modules.
module Text {

  type Byte = b: int | 0 <= b < 256

  type Bytes = seq<Byte>

  datatype Option<+T> = None | Some(value: T)

  // "/".join(parts)
  function Join(parts: seq<string>): string
  {
    if parts == [] then ""
    else if |parts| == 1 then parts[0]
    else parts[0] + "/" + Join(parts[1..])
  }

  // text.split("/")
  function Split(text: string): (parts: seq<string>)
    ensures |parts| >= 1
  {
    if text == "" then [""]
    else
      var rest := Split(text[1..]);
      if text[0] == '/' then [""] + rest else [[text[0]] + rest[0]] + rest[1..]
  }

  ghost predicate SlashFree(parts: seq<string>)
  {
    forall i | 0 <= i < |parts| :: '/' !in parts[i]
  }

  lemma {:induction false} SplitPrefix(word: string, rest: string)
    requires '/' !in word
    ensures Split(word + "/" + rest) == [word] + Split(rest)
  {
    if word == "" {
      assert (word + "/" + rest)[1..] == rest;
    } else {
      SplitPrefix(word[1..], rest);
      assert (word + "/" + rest)[1..] == word[1..] + "/" + rest;
      assert [word[0]] + word[1..] == word;
    }
  }

  lemma {:induction false} SplitWord(word: string)
    requires '/' !in word
    ensures Split(word) == [word]
  {
    if word != "" {
      SplitWord(word[1..]);
      assert [word[0]] + word[1..] == word;
    }
  }

  // Splitting undoes joining, so joining slash-free parts is injective.
  lemma {:induction false} SplitUndoesJoin(parts: seq<string>)
    requires parts != [] && SlashFree(parts)
    ensures Split(Join(parts)) == parts
  {
    assert '/' !in parts[0];
    if |parts| == 1 {
      SplitWord(parts[0]);
    } else {
      SplitUndoesJoin(parts[1..]);
      SplitPrefix(parts[0], Join(parts[1..]));
      assert [parts[0]] + parts[1..] == parts;
    }
  }

  // Joining undoes splitting, and no part of a split holds a slash.
  lemma {:induction false} JoinUndoesSplit(text: string)
    ensures Join(Split(text)) == text
    ensures SlashFree(Split(text))
  {
    if text != "" {
      JoinUndoesSplit(text[1..]);
      var rest := Split(text[1..]);
      assert [text[0]] + text[1..] == text;
      if text[0] == '/' {
        assert Split(text)[1..] == rest;
        assert "/" + text[1..] == text;
      } else {
        var parts := [[text[0]] + rest[0]] + rest[1..];
        assert parts[1..] == rest[1..];
        if |rest| > 1 {
          assert [text[0]] + (rest[0] + "/" + Join(rest[1..])) == ([text[0]] + rest[0]) + "/" + Join(rest[1..]);
        }
      }
    }
  }
}
