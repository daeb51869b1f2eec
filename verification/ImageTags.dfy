// Tags of rebuilt container images (scripts/container_refresh.py).
module ImageTags {
  import opened Text

  const VARIANTS: set<string> := {"wolfi", "alpine", "debian", "suse-micro", "suse-bci"}
  const PROFILES: set<string> := {"full", "wasm", "cache", "proxy", "php", "load-balancer"}

  predicate Digit(c: char)
  {
    '0' <= c <= '9'
  }

  predicate Number(s: string, most: nat)
  {
    1 <= |s| <= most && forall i | 0 <= i < |s| :: Digit(s[i])
  }

  // vMAJOR.MINOR.PATCH with at most ten digits each.
  predicate StableTag(s: string)
  {
    exists i, j | 1 <= i < j < |s| ::
      && s[0] == 'v' && s[i] == '.' && s[j] == '.'
      && Number(s[1..i], 10) && Number(s[i + 1..j], 10) && Number(s[j + 1..], 10)
  }

  // RUN_ID-RUN_ATTEMPT
  predicate Revision(s: string)
  {
    exists i | 0 <= i < |s| :: s[i] == '-' && Number(s[..i], 20) && Number(s[i + 1..], 10)
  }

  function Suffix(profile: string, variant: string): string
  {
    if profile == "full" then variant else profile + "-" + variant
  }

  datatype Tags = Tags(candidate: string, aliases: seq<string>)

  function TagsOf(version: string, profile: string, variant: string, revision: string): Option<Tags>
  {
    if !StableTag(version) || !Revision(revision) || profile !in PROFILES || variant !in VARIANTS then None
    else
      var tail := Suffix(profile, variant);
      var extra :=
        if variant != "wolfi" then []
        else if profile == "full" then [version, version + "-" + "base"]
        else [version + "-" + profile];
      Some(Tags(version + "-" + ("rebuild-" + revision + "-" + tail), [version + "-" + tail] + extra))
  }

  // ---- which image a tag belongs to ------------------------------------------------------------------------

  function ProfileOf(ending: string): string
  {
    if |ending| < 2 then ""
    else
      match ending[0]
      case 'w' => if ending[1] == 'a' then "wasm" else "full"
      case 'c' => "cache"
      case 'p' => if ending[1] == 'r' then "proxy" else "php"
      case 'l' => "load-balancer"
      case _ => "full"
  }

  function VariantNamed(name: string): string
  {
    if |name| < 6 then "wolfi"
    else
      match name[0]
      case 'a' => "alpine"
      case 'd' => "debian"
      case _ => if name[5] == 'm' then "suse-micro" else "suse-bci"
  }

  function VariantOf(ending: string): string
  {
    var profile := ProfileOf(ending);
    if profile == "full" then VariantNamed(ending)
    else if |ending| <= |profile| then "wolfi"
    else VariantNamed(ending[|profile| + 1..])
  }

  // The endings an image's tags may have after the version and a hyphen.
  predicate EndingOf(profile: string, variant: string, ending: string)
  {
    || ending == Suffix(profile, variant)
    || (variant == "wolfi" && ending == if profile == "full" then "base" else profile)
  }

  lemma EndingNames(profile: string, variant: string, ending: string)
    requires profile in PROFILES && variant in VARIANTS && EndingOf(profile, variant, ending)
    ensures ProfileOf(ending) == profile && VariantOf(ending) == variant
    ensures ending != "" && ending[0] != 'r'
  {
    if ending == profile + "-" + variant {
      assert ending[|profile| + 1..] == variant;
    }
  }

  // ---- hyphens separate ------------------------------------------------------------------------------------

  lemma VersionUnhyphenated(version: string)
    requires StableTag(version)
    ensures '-' !in version
  {
    var i, j :| 1 <= i < j < |version| && version[0] == 'v' && version[i] == '.' && version[j] == '.'
                && Number(version[1..i], 10) && Number(version[i + 1..j], 10) && Number(version[j + 1..], 10);
    forall k | 0 <= k < |version|
      ensures version[k] != '-'
    {
      if 1 <= k < i {
        assert Digit(version[1..i][k - 1]);
      } else if i < k < j {
        assert Digit(version[i + 1..j][k - i - 1]);
      } else if j < k {
        assert Digit(version[j + 1..][k - j - 1]);
      }
    }
  }

  lemma RevisionParts(revision: string) returns (id: string, attempt: string)
    requires Revision(revision)
    ensures revision == id + "-" + attempt && '-' !in id && '-' !in attempt
  {
    var i :| 0 <= i < |revision| && revision[i] == '-' && Number(revision[..i], 20) && Number(revision[i + 1..], 10);
    id, attempt := revision[..i], revision[i + 1..];
    assert forall k | 0 <= k < |id| :: Digit(id[k]);
    assert forall k | 0 <= k < |attempt| :: Digit(attempt[k]);
  }

  // The first hyphen tells the two parts apart.
  lemma FirstHyphen(left: string, right: string, left': string, right': string)
    requires '-' !in left && '-' !in left' && left + "-" + right == left' + "-" + right'
    ensures left == left' && right == right'
  {
    var text := left + "-" + right;
    assert text[|left|] == '-' && text[|left'|] == '-';
    assert forall k | 0 <= k < |left| :: left[k] == text[k];
    assert forall k | 0 <= k < |left'| :: left'[k] == text[k];
    assert |left| == |left'|;
    assert left == text[..|left|] && right == text[|left| + 1..];
    assert left' == text[..|left|] && right' == text[|left| + 1..];
  }

  // ---- no tag is shared ------------------------------------------------------------------------------------

  // An alias is the bare version, for the full wolfi image only, or the version and one of the image's endings.
  lemma AliasShape(version: string, profile: string, variant: string, revision: string, tag: string)
    returns (ending: Option<string>)
    requires var r := TagsOf(version, profile, variant, revision); r.Some? && tag in r.value.aliases
    ensures match ending
            case None => tag == version && profile == "full" && variant == "wolfi"
            case Some(e) => EndingOf(profile, variant, e) && tag == version + "-" + e && '-' in tag
  {
    hide StableTag, Revision;
    if tag == version && profile == "full" && variant == "wolfi" {
      return None;
    }
    var tail := Suffix(profile, variant);
    var e := if tag == version + "-" + tail then tail else if profile == "full" then "base" else profile;
    assert tag[|version|] == '-';
    return Some(e);
  }

  // Two images share an alias only when version, profile and variant all agree, whatever their revisions.
  lemma AliasesDisjoint(version: string, profile: string, variant: string, revision: string,
                        version': string, profile': string, variant': string, revision': string, tag: string)
    requires var r := TagsOf(version, profile, variant, revision); r.Some? && tag in r.value.aliases
    requires var r := TagsOf(version', profile', variant', revision'); r.Some? && tag in r.value.aliases
    ensures version == version' && profile == profile' && variant == variant'
  {
    hide StableTag, Revision, EndingOf, Suffix, ProfileOf, VariantOf;
    VersionUnhyphenated(version);
    VersionUnhyphenated(version');
    var ending := AliasShape(version, profile, variant, revision, tag);
    var ending' := AliasShape(version', profile', variant', revision', tag);
    if ending.Some? && ending'.Some? {
      FirstHyphen(version, ending.value, version', ending'.value);
      EndingNames(profile, variant, ending.value);
      EndingNames(profile', variant', ending'.value);
    }
  }

  // No candidate tag is ever an alias, of the same image or of another one.
  lemma CandidateIsNoAlias(version: string, profile: string, variant: string, revision: string,
                           version': string, profile': string, variant': string, revision': string)
    requires TagsOf(version, profile, variant, revision).Some? && TagsOf(version', profile', variant', revision').Some?
    ensures TagsOf(version, profile, variant, revision).value.candidate !in
            TagsOf(version', profile', variant', revision').value.aliases
  {
    hide StableTag, Revision, EndingOf, Suffix, ProfileOf, VariantOf;
    VersionUnhyphenated(version);
    VersionUnhyphenated(version');
    var candidate := TagsOf(version, profile, variant, revision).value.candidate;
    var rest := "rebuild-" + revision + "-" + Suffix(profile, variant);
    assert candidate == version + "-" + rest && candidate[|version|] == '-' && rest[0] == 'r';
    if candidate in TagsOf(version', profile', variant', revision').value.aliases {
      var ending := AliasShape(version', profile', variant', revision', candidate);
      if ending.Some? {
        FirstHyphen(version, rest, version', ending.value);
        EndingNames(profile', variant', ending.value);
      }
    }
  }

  // A candidate tag names its version, profile, variant and revision.
  lemma CandidatesDistinct(version: string, profile: string, variant: string, revision: string,
                           version': string, profile': string, variant': string, revision': string)
    requires TagsOf(version, profile, variant, revision).Some? && TagsOf(version', profile', variant', revision').Some?
    requires TagsOf(version, profile, variant, revision).value.candidate ==
             TagsOf(version', profile', variant', revision').value.candidate
    ensures version == version' && profile == profile' && variant == variant' && revision == revision'
  {
    hide StableTag, Revision, EndingOf, Suffix, ProfileOf, VariantOf;
    VersionUnhyphenated(version);
    VersionUnhyphenated(version');
    var tail, tail' := Suffix(profile, variant), Suffix(profile', variant');
    var rest, rest' := "rebuild-" + revision + "-" + tail, "rebuild-" + revision' + "-" + tail';
    FirstHyphen(version, rest, version', rest');
    RebuildParts(revision, tail, revision', tail');
    SuffixIsEnding(profile, variant);
    SuffixIsEnding(profile', variant');
    EndingNames(profile, variant, tail);
    EndingNames(profile', variant', tail');
  }

  lemma SuffixIsEnding(profile: string, variant: string)
    ensures EndingOf(profile, variant, Suffix(profile, variant))
  {
  }

  lemma RebuildParts(revision: string, tail: string, revision': string, tail': string)
    requires Revision(revision) && Revision(revision')
    requires "rebuild-" + revision + "-" + tail == "rebuild-" + revision' + "-" + tail'
    ensures revision == revision' && tail == tail'
  {
    hide Revision;
    var id, attempt := RevisionParts(revision);
    var id', attempt' := RevisionParts(revision');
    var text, text' := "rebuild-" + revision + "-" + tail, "rebuild-" + revision' + "-" + tail';
    assert text[8..] == id + "-" + (attempt + "-" + tail);
    assert text'[8..] == id' + "-" + (attempt' + "-" + tail');
    FirstHyphen(id, attempt + "-" + tail, id', attempt' + "-" + tail');
    FirstHyphen(attempt, tail, attempt', tail');
  }

  // ---- when there are tags, and which ----------------------------------------------------------------------

  ghost predicate Digits(s: string, most: nat)
  {
    1 <= |s| <= most && forall c | c in s :: '0' <= c <= '9'
  }

  lemma NumberIsDigits(s: string, most: nat)
    ensures Number(s, most) <==> Digits(s, most)
  {
    if Digits(s, most) {
      forall i | 0 <= i < |s|
        ensures Digit(s[i])
      {
        assert s[i] in s;
      }
    }
  }

  ghost predicate VersionOf(version: string, major: string, minor: string, patch: string)
  {
    && Digits(major, 10) && Digits(minor, 10) && Digits(patch, 10)
    && version == "v" + major + "." + minor + "." + patch
  }

  ghost predicate RevisionOf(revision: string, run: string, attempt: string)
  {
    Digits(run, 20) && Digits(attempt, 10) && revision == run + "-" + attempt
  }

  lemma StableTagMeans(version: string)
    ensures StableTag(version) <==> exists major, minor, patch :: VersionOf(version, major, minor, patch)
  {
    hide StableTag, VersionOf;
    if StableTag(version) {
      var major, minor, patch := VersionHasParts(version);
    }
    if major, minor, patch :| VersionOf(version, major, minor, patch) {
      PartsMakeVersion(version, major, minor, patch);
    }
  }

  lemma VersionHasParts(version: string) returns (major: string, minor: string, patch: string)
    requires StableTag(version)
    ensures VersionOf(version, major, minor, patch)
  {
    hide Number, Digits;
    var i, j :| 1 <= i < j < |version| && version[0] == 'v' && version[i] == '.' && version[j] == '.'
                && Number(version[1..i], 10) && Number(version[i + 1..j], 10) && Number(version[j + 1..], 10);
    major, minor, patch := version[1..i], version[i + 1..j], version[j + 1..];
    NumberIsDigits(major, 10);
    NumberIsDigits(minor, 10);
    NumberIsDigits(patch, 10);
    TakenApart(version, i, j);
  }

  lemma TakenApart<T>(s: seq<T>, i: nat, j: nat)
    requires 1 <= i < j < |s|
    ensures s == [s[0]] + s[1..i] + [s[i]] + s[i + 1..j] + [s[j]] + s[j + 1..]
  {
  }

  lemma PartsMakeVersion(version: string, major: string, minor: string, patch: string)
    requires VersionOf(version, major, minor, patch)
    ensures StableTag(version)
  {
    hide Number, Digits;
    NumberIsDigits(major, 10);
    NumberIsDigits(minor, 10);
    NumberIsDigits(patch, 10);
    PutTogether('v', major, '.', minor, patch);
    var i := 1 + |major|;
    var j := i + 1 + |minor|;
    assert Number(version[1..i], 10) && Number(version[i + 1..j], 10) && Number(version[j + 1..], 10);
  }

  lemma PutTogether<T>(c: T, a: seq<T>, d: T, b: seq<T>, e: seq<T>)
    ensures var s, i := [c] + a + [d] + b + [d] + e, 1 + |a|;
            var j := i + 1 + |b|;
            && s[0] == c && s[i] == d && s[j] == d && s[1..i] == a && s[i + 1..j] == b && s[j + 1..] == e
            && j < |s|
  {
  }

  lemma RevisionMeans(revision: string)
    ensures Revision(revision) <==> exists run, attempt :: RevisionOf(revision, run, attempt)
  {
    hide Number, Digits;
    if Revision(revision) {
      var i :| 0 <= i < |revision| && revision[i] == '-' && Number(revision[..i], 20) && Number(revision[i + 1..], 10);
      NumberIsDigits(revision[..i], 20);
      NumberIsDigits(revision[i + 1..], 10);
      assert revision == revision[..i] + "-" + revision[i + 1..];
      assert RevisionOf(revision, revision[..i], revision[i + 1..]);
    }
    if run, attempt :| RevisionOf(revision, run, attempt) {
      NumberIsDigits(run, 20);
      NumberIsDigits(attempt, 10);
      var i := |run|;
      assert revision[..i] == run && revision[i] == '-' && revision[i + 1..] == attempt;
    }
  }

  // The aliases of an image: its own, and for wolfi the short ones; only the full wolfi image has the bare version.
  ghost function AliasesOf(version: string, profile: string, variant: string): seq<string>
  {
    if variant == "wolfi" then
      if profile == "full" then [version + "-wolfi", version, version + "-base"]
      else [version + "-" + profile + "-wolfi", version + "-" + profile]
    else if profile == "full" then [version + "-" + variant]
    else [version + "-" + profile + "-" + variant]
  }

  ghost function CandidateOf(version: string, profile: string, variant: string, revision: string): string
  {
    version + "-rebuild-" + revision + (if profile == "full" then "" else "-" + profile) + "-" + variant
  }

  // An image has tags exactly for a version of three numbers, a revision of two, and a known profile and variant, and
  // then they are these.
  lemma TagsExactly(version: string, profile: string, variant: string, revision: string)
    ensures var r := TagsOf(version, profile, variant, revision);
            && (r.Some? <==>
                  && (exists major, minor, patch :: VersionOf(version, major, minor, patch))
                  && (exists run, attempt :: RevisionOf(revision, run, attempt))
                  && profile in ["full", "wasm", "cache", "proxy", "php", "load-balancer"]
                  && variant in ["wolfi", "alpine", "debian", "suse-micro", "suse-bci"])
            && (r.Some? ==>
                  && r.value.candidate == CandidateOf(version, profile, variant, revision)
                  && r.value.aliases == AliasesOf(version, profile, variant))
  {
    hide StableTag, Revision, VersionOf, RevisionOf;
    StableTagMeans(version);
    RevisionMeans(revision);
    CandidateJoins(version, profile, variant, revision);
    AliasesJoin(version, profile, variant);
  }

  lemma CandidateJoins(version: string, profile: string, variant: string, revision: string)
    ensures version + "-" + ("rebuild-" + revision + "-" + Suffix(profile, variant)) ==
            CandidateOf(version, profile, variant, revision)
  {
    if profile == "full" {
      assert version + "-" + ("rebuild-" + revision + "-" + variant) ==
             version + "-rebuild-" + revision + "-" + variant;
    } else {
      assert version + "-" + ("rebuild-" + revision + "-" + (profile + "-" + variant)) ==
             version + "-rebuild-" + revision + ("-" + profile) + "-" + variant;
    }
  }

  lemma AliasesJoin(version: string, profile: string, variant: string)
    ensures version + "-" + (profile + "-" + variant) == version + "-" + profile + "-" + variant
    ensures version + "-" + "wolfi" == version + "-wolfi" && version + "-" + "base" == version + "-base"
    ensures version + "-" + (profile + "-" + "wolfi") == version + "-" + profile + "-wolfi"
  {
  }
}
