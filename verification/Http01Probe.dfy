// The local HTTP-01 reachability probe of the ACME doctor (src/acme_companion_commands.rs), which answers a challenge
// as in section 8.3 of RFC 8555 and fetches it from every address of the domain.
module Http01Probe {
  import opened Text

  const LIMIT: nat := 65536

  // One address: no connection, an error while timeouts are set, the request is written or the reply is read, or a
  // whole reply.
  datatype Reply = Refused | Broken | Answer(bytes: Bytes)

  // The last thing that went wrong at an address before the next one was tried.
  datatype Miss = NoConnection | NoAuthorization

  datatype Verdict =
    | Reached | Unresolved | NoAddress | ExchangeFailed | TooLong | Unreachable(last: Option<Miss>)

  datatype Result = Success | InstallFailed | ProbeFailed(verdict: Verdict) | CleanupFailed

  predicate Contains(text: Bytes, part: Bytes)
  {
    exists i | 0 <= i <= |text| :: WindowAt(text, part, i)
  }

  predicate WindowAt(text: Bytes, part: Bytes, i: int)
  {
    0 <= i && i + |part| <= |text| && text[i..i + |part|] == part
  }

  // ---- what decides the probe ------------------------------------------------------------------------------

  // An address that leaves the question to the next one.
  predicate Passed(reply: Reply, authorization: Bytes)
  {
    reply.Refused? || (reply.Answer? && |reply.bytes| <= LIMIT && !Contains(reply.bytes, authorization))
  }

  predicate Answers(reply: Reply, authorization: Bytes)
  {
    reply.Answer? && |reply.bytes| <= LIMIT && Contains(reply.bytes, authorization)
  }

  // The address at i is the first that is not passed over.
  ghost predicate Decides(replies: seq<Reply>, authorization: Bytes, i: int)
  {
    && 0 <= i < |replies| && !Passed(replies[i], authorization)
    && forall j | 0 <= j < i :: Passed(replies[j], authorization)
  }

  ghost predicate Judged(addresses: Option<seq<Reply>>, authorization: Bytes, v: Verdict)
  {
    match addresses
    case None => v == Unresolved
    case Some(replies) =>
      if replies == [] then v == NoAddress
      else if exists i :: Decides(replies, authorization, i) then
        exists i :: Decides(replies, authorization, i) && v == VerdictOf(replies[i], authorization)
      else v == Unreachable(Some(if replies[|replies| - 1].Refused? then NoConnection else NoAuthorization))
  }

  function VerdictOf(reply: Reply, authorization: Bytes): Verdict
    requires !Passed(reply, authorization)
  {
    if reply.Broken? then ExchangeFailed else if |reply.bytes| > LIMIT then TooLong else Reached
  }

  // At most one byte past the limit is read.
  function Taken(bytes: Bytes): Bytes
  {
    if |bytes| <= LIMIT + 1 then bytes else bytes[..LIMIT + 1]
  }

  method Probe(addresses: Option<seq<Reply>>, authorization: Bytes) returns (v: Verdict)
    ensures Judged(addresses, authorization, v)
  {
    if addresses.None? {
      return Unresolved;
    }
    var replies := addresses.value;
    if replies == [] {
      return NoAddress;
    }
    var last: Option<Miss>, i := None, 0;
    while i < |replies|
      invariant 0 <= i <= |replies|
      invariant forall j | 0 <= j < i :: Passed(replies[j], authorization)
      invariant i > 0 ==> last == Some(if replies[i - 1].Refused? then NoConnection else NoAuthorization)
    {
      match replies[i] {
        case Refused =>
          last := Some(NoConnection);
        case Broken =>
          assert Decides(replies, authorization, i);
          return ExchangeFailed;
        case Answer(bytes) =>
          var response := Taken(bytes);
          if |response| > LIMIT {
            assert Decides(replies, authorization, i);
            return TooLong;
          }
          if Contains(response, authorization) {
            assert Decides(replies, authorization, i);
            return Reached;
          }
          last := Some(NoAuthorization);
      }
      i := i + 1;
    }
    v := Unreachable(last);
  }

  lemma DecidedOnce(replies: seq<Reply>, authorization: Bytes, i: int)
    requires Decides(replies, authorization, i)
    ensures forall k | Decides(replies, authorization, k) :: k == i
  {
  }

  // The probe reaches the server exactly when some address answers with the authorization within the limit and every
  // address before it is passed over.
  lemma ReachedExactly(replies: seq<Reply>, authorization: Bytes, v: Verdict)
    requires Judged(Some(replies), authorization, v)
    ensures v.Reached? <==>
            exists i | 0 <= i < |replies| ::
              Answers(replies[i], authorization) && forall j | 0 <= j < i :: Passed(replies[j], authorization)
  {
    if i :| 0 <= i < |replies| && Answers(replies[i], authorization) &&
            forall j | 0 <= j < i :: Passed(replies[j], authorization) {
      assert Decides(replies, authorization, i);
      DecidedOnce(replies, authorization, i);
    } else if v.Reached? {
      var k :| Decides(replies, authorization, k) && v == VerdictOf(replies[k], authorization);
      assert Answers(replies[k], authorization);
    }
  }

  // The reply holds the bytes somewhere.
  ghost predicate Holds(text: Bytes, part: Bytes)
  {
    exists before, after :: text == before + part + after
  }

  lemma ContainsMeans(text: Bytes, part: Bytes)
    ensures Contains(text, part) <==> Holds(text, part)
  {
    if Contains(text, part) {
      var i :| 0 <= i <= |text| && WindowAt(text, part, i);
      assert text == text[..i] + part + text[i + |part|..];
    }
    if before, after :| text == before + part + after {
      assert WindowAt(text, part, |before|);
    }
  }

  // Every verdict: the first address that does not refuse and does not answer in 64 KiB without the authorization
  // decides.  It answers with it, breaks off, or sends too much; without such an address the last one is reported.
  lemma VerdictExactly(replies: seq<Reply>, authorization: Bytes, v: Verdict, i: nat)
    requires Judged(Some(replies), authorization, v) && i <= |replies| && replies != []
    requires forall j | 0 <= j < i ::
               replies[j] == Refused ||
               (replies[j].Answer? && |replies[j].bytes| <= 65536 && !Holds(replies[j].bytes, authorization))
    ensures i < |replies| && replies[i].Broken? ==> v == ExchangeFailed
    ensures i < |replies| && replies[i].Answer? && |replies[i].bytes| > 65536 ==> v == TooLong
    ensures i < |replies| && replies[i].Answer? && |replies[i].bytes| <= 65536 ==>
              (Holds(replies[i].bytes, authorization) ==> v == Reached)
    ensures i == |replies| ==>
              v == Unreachable(Some(if replies[i - 1] == Refused then NoConnection else NoAuthorization))
  {
    hide Contains, Holds;
    forall j | 0 <= j < |replies| && replies[j].Answer?
      ensures Contains(replies[j].bytes, authorization) <==> Holds(replies[j].bytes, authorization)
    {
      ContainsMeans(replies[j].bytes, authorization);
    }
    if i < |replies| && Decides(replies, authorization, i) {
      DecidedOnce(replies, authorization, i);
    }
  }

  // ---- the token in the challenge store --------------------------------------------------------------------

  // Whether the operations to come succeed; once these run out every one does.
  function SucceedsAt(outcomes: seq<bool>, i: nat): bool
  {
    i < |outcomes| ==> outcomes[i]
  }

  // Either operation may fail, with or without having taken effect.
  class Store {
    var tokens: map<string, string>
    var outcomes: seq<bool>
    ghost var removals: seq<string>

    constructor (outcomes: seq<bool>)
      ensures tokens == map[] && removals == [] && this.outcomes == outcomes
    {
      tokens, removals, this.outcomes := map[], [], outcomes;
    }

    method Install(token: string, authorization: string) returns (ok: bool)
      modifies `tokens, `outcomes
      ensures ok == SucceedsAt(old(outcomes), 0)
      ensures forall i: nat :: SucceedsAt(outcomes, i) == SucceedsAt(old(outcomes), i + 1)
      ensures tokens == old(tokens) || tokens == old(tokens)[token := authorization]
      ensures ok ==> tokens == old(tokens)[token := authorization]
    {
      ok := SucceedsAt(outcomes, 0);
      outcomes := if outcomes == [] then [] else outcomes[1..];
      var effect: bool := *;
      if ok || effect {
        tokens := tokens[token := authorization];
      }
    }

    method Remove(token: string) returns (ok: bool)
      modifies this
      ensures ok == SucceedsAt(old(outcomes), 0)
      ensures removals == old(removals) + [token]
      ensures tokens == old(tokens) || tokens == old(tokens) - {token}
      ensures ok ==> tokens == old(tokens) - {token}
    {
      ok := SucceedsAt(outcomes, 0);
      outcomes := if outcomes == [] then [] else outcomes[1..];
      var effect: bool := *;
      removals := removals + [token];
      if ok || effect {
        tokens := tokens - {token};
      }
    }
  }

  // Once the token is installed it is removed exactly once on every path; success needs both the probe and the removal,
  // and an error of the probe is never replaced by one of the removal.
  method Doctor(store: Store, token: string, encode: string -> Bytes, addresses: Option<seq<Reply>>)
    returns (r: Result, ghost v: Verdict)
    modifies store
    ensures r.InstallFailed? || Judged(addresses, encode(token + ".local-preflight"), v)
    ensures r == if !SucceedsAt(old(store.outcomes), 0) then InstallFailed
                 else if !v.Reached? then ProbeFailed(v)
                 else if SucceedsAt(old(store.outcomes), 1) then Success else CleanupFailed
    ensures store.removals == old(store.removals) + if r.InstallFailed? then [] else [token]
    ensures !r.InstallFailed? && SucceedsAt(old(store.outcomes), 1) ==> store.tokens == old(store.tokens) - {token}
    ensures forall t | t != token :: t in store.tokens <==> t in old(store.tokens)
    ensures forall t | t in store.tokens && t != token :: store.tokens[t] == old(store.tokens)[t]
  {
    var authorization := token + ".local-preflight";
    var ok := store.Install(token, authorization);
    if !ok {
      return InstallFailed, Unresolved;
    }
    var verdict := Probe(addresses, encode(authorization));
    v := verdict;
    var cleanup := store.Remove(token);
    if !verdict.Reached? {
      r := ProbeFailed(verdict);
    } else if cleanup {
      r := Success;
    } else {
      r := CleanupFailed;
    }
  }
}
