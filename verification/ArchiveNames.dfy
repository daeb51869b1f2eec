// Member names of a release archive (scripts/native_archive.py, member_path).
module ArchiveNames {
  import opened Text

  const MAX_NAME: nat := 1024

  // text.rstrip("/")
  function RStrip(text: string): string
  {
    if text != "" && text[|text| - 1] == '/' then RStrip(text[..|text| - 1]) else text
  }

  function Lower(c: char): char
  {
    if 'A' <= c <= 'Z' then 'a' + (c - 'A') else c
  }

  predicate StartsWith(part: string, word: string)
  {
    |word| <= |part| && forall i | 0 <= i < |word| :: Lower(part[i]) == word[i]
  }

  // The part is `length` characters long, or goes on with a dot.
  predicate StemEnds(part: string, length: nat)
  {
    length <= |part| && (length == |part| || part[length] == '.')
  }

  // (?:con|prn|aux|nul|com[0-9]|lpt[0-9])(?:\..*)?, in any case.  The dot does not match a line break, but a part
  // with a line break is unsafe anyway.
  predicate Reserved(part: string)
  {
    || (StemEnds(part, 3) && (StartsWith(part, "con") || StartsWith(part, "prn") || StartsWith(part, "aux")
                              || StartsWith(part, "nul")))
    || (StemEnds(part, 4) && '0' <= part[3] <= '9' && (StartsWith(part, "com") || StartsWith(part, "lpt")))
  }

  predicate SafeChar(c: char)
  {
    c >= ' ' && c !in "\\:<>\"|?*"
  }

  predicate SafePart(part: string)
  {
    && part != "" && part != "." && part != ".."
    && part[|part| - 1] != '.' && part[|part| - 1] != ' '
    && !Reserved(part)
    && forall i | 0 <= i < |part| :: SafeChar(part[i])
  }

  // ---- what is safe, in other words --------------------------------------------------------------------------

  // The same letter, in either case.
  ghost predicate SameLetter(a: char, b: char)
  {
    || a == b
    || ('a' <= a <= 'z' && b as int == a as int - 32)
    || ('A' <= a <= 'Z' && b as int == a as int + 32)
  }

  // The same word, each letter in either case.
  ghost predicate SameWord(a: string, b: string)
  {
    |a| == |b| && forall i | 0 <= i < |a| :: SameLetter(a[i], b[i])
  }

  ghost predicate SmallLetters(word: string)
  {
    forall i | 0 <= i < |word| :: 'a' <= word[i] <= 'z'
  }

  lemma StartsWithMeans(part: string, word: string)
    requires SmallLetters(word)
    ensures StartsWith(part, word) <==> |word| <= |part| && SameWord(part[..|word|], word)
  {
    if |word| <= |part| {
      assert forall i | 0 <= i < |word| :: Lower(part[i]) == word[i] <==> SameLetter(part[..|word|][i], word[i]);
    }
  }

  // The names of the devices, in any case.
  ghost predicate Device(name: string)
  {
    || (exists word | word in ["con", "prn", "aux", "nul"] :: SameWord(name, word))
    || (exists word, stem, digit | word in ["com", "lpt"] && '0' <= digit <= '9' ::
          SameWord(stem, word) && name == stem + [digit])
  }

  // The name is all of the part, or all of it before a dot.
  ghost predicate HeadOf(name: string, part: string)
  {
    part == name || name + "." <= part
  }

  lemma ReservedIsDevice(part: string)
    ensures Reserved(part) <==> exists name :: Device(name) && HeadOf(name, part)
  {
    hide Reserved, Device, HeadOf;
    if Reserved(part) {
      var name := DeviceAhead(part);
    }
    if name :| Device(name) && HeadOf(name, part) {
      DeviceIsReserved(name, part);
    }
  }

  lemma DeviceAhead(part: string) returns (name: string)
    requires Reserved(part)
    ensures Device(name) && HeadOf(name, part)
  {
    hide StartsWith, SameWord;
    if word :| word in ["con", "prn", "aux", "nul"] && StartsWith(part, word) && StemEnds(part, 3) {
      name := part[..3];
      StartsWithMeans(part, word);
    } else {
      name := part[..4];
      var word := if StartsWith(part, "com") then "com" else "lpt";
      StartsWithMeans(part, word);
      assert name == part[..3] + [part[3]];
    }
  }

  lemma DeviceIsReserved(name: string, part: string)
    requires Device(name) && HeadOf(name, part)
    ensures Reserved(part)
  {
    hide StartsWith;
    if word :| word in ["con", "prn", "aux", "nul"] && SameWord(name, word) {
      HeadEnds(name, part);
      StartsWithMeans(part, word);
    } else {
      var word, stem, digit :| word in ["com", "lpt"] && '0' <= digit <= '9' && SameWord(stem, word)
                               && name == stem + [digit];
      HeadEnds(stem + [digit], part);
      assert part[..3] == part[..4][..3] == stem && part[3] == part[..4][3] == digit;
      StartsWithMeans(part, word);
    }
  }

  lemma HeadEnds(name: string, part: string)
    requires HeadOf(name, part)
    ensures StemEnds(part, |name|) && part[..|name|] == name
  {
  }

  // A part is safe exactly when it is not empty, ends in neither a dot nor a space, holds no control character and none
  // of the characters Windows forbids, and is no device name, alone or before a dot, in any case.
  lemma SafePartExactly(part: string)
    ensures SafePart(part) <==>
            && part != "" && part[|part| - 1] !in ". "
            && Printable(part)
            && !exists name :: Device(name) && HeadOf(name, part)
  {
    hide Reserved, Device, HeadOf, Printable, SafeChar;
    ReservedIsDevice(part);
    SafeCharsMean(part);
  }

  ghost predicate Printable(part: string)
  {
    forall c | c in part :: c as int >= 32 && c !in ['\\', ':', '<', '>', '"', '|', '?', '*']
  }

  lemma SafeCharsMean(part: string)
    ensures Printable(part) <==> forall i | 0 <= i < |part| :: SafeChar(part[i])
  {
    if Printable(part) {
      forall i | 0 <= i < |part|
        ensures SafeChar(part[i])
      {
        assert part[i] in part;
      }
    }
  }

  // member_path: the parts of an admissible name, or None.
  function MemberPath(name: string, bundle: string): Option<seq<string>>
  {
    var parts := Split(RStrip(name));
    if parts[0] == bundle && |name| <= MAX_NAME && (forall i | 0 <= i < |parts| :: SafePart(parts[i])) then Some(parts)
    else None
  }

  // relative.as_posix()
  function Key(name: string): string
  {
    RStrip(name)
  }

  // An admissible name is read from its key alone: the parts are safe, slash-free and rooted at the bundle, and
  // joining them gives the key back, so members with the same parts have the same key and the other way round.
  lemma MemberPathFaithful(name: string, bundle: string)
    requires MemberPath(name, bundle).Some?
    ensures var parts := MemberPath(name, bundle).value;
            && parts != [] && parts[0] == bundle && SlashFree(parts)
            && Join(parts) == Key(name) && Split(Key(name)) == parts
            && forall i | 0 <= i < |parts| :: SafePart(parts[i]) && parts[i] != ".."
  {
    JoinUndoesSplit(RStrip(name));
  }

  lemma {:induction false} RStripLonger(text: string)
    ensures |RStrip(text)| <= |text| && (text != "" && text[|text| - 1] != '/' ==> RStrip(text) == text)
  {
    if text != "" && text[|text| - 1] == '/' {
      RStripLonger(text[..|text| - 1]);
    }
  }

  // A name without a trailing slash is admissible if and only if its parts are, whatever they are joined from.
  lemma MemberPathOfJoin(parts: seq<string>, bundle: string)
    requires parts != [] && SlashFree(parts) && parts[|parts| - 1] != ""
    ensures RStrip(Join(parts)) == Join(parts)
    ensures MemberPath(Join(parts), bundle) ==
            if parts[0] == bundle && |Join(parts)| <= MAX_NAME && (forall i | 0 <= i < |parts| :: SafePart(parts[i]))
            then Some(parts) else None
    ensures RStrip(Join(parts) + "/") == Join(parts)
    ensures MemberPath(Join(parts) + "/", bundle) ==
            if parts[0] == bundle && |Join(parts)| < MAX_NAME && (forall i | 0 <= i < |parts| :: SafePart(parts[i]))
            then Some(parts) else None
  {
    SplitUndoesJoin(parts);
    JoinEnds(parts);
    var name := Join(parts);
    RStripLonger(name);
    assert (name + "/")[..|name|] == name;
  }

  lemma {:induction false} JoinEnds(parts: seq<string>)
    requires parts != [] && SlashFree(parts) && parts[|parts| - 1] != ""
    ensures Join(parts) != "" && Join(parts)[|Join(parts)| - 1] != '/'
  {
    if |parts| == 1 {
      assert '/' !in parts[0];
    } else {
      JoinEnds(parts[1..]);
    }
  }
}
