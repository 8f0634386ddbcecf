/** Who is let in: what a bearer token is granted, and that a revoked or deleted one is granted nothing. */
module TokenGrants {
  import opened Wrappers
  import opened Text
  import opened TokenStore

  // ----- Which record decides

  predicate Live(record: Record, hash: string) {
    record.revokedAt.None? && record.tokenHash == hash
  }

  /** The `k`-th record is the first active one with this token hash. */
  ghost predicate Decides(records: seq<Record>, k: nat, hash: string) {
    k < |records| && Live(records[k], hash) && forall j :: 0 <= j < k ==> !Live(records[j], hash)
  }

  ghost predicate NoneLive(records: seq<Record>, hash: string) {
    forall k :: 0 <= k < |records| ==> !Live(records[k], hash)
  }

  lemma {:induction false} ActiveWithDecides(records: seq<Record>, hash: string)
    ensures var k := ActiveWith(records, hash);
            if k < |records| then Decides(records, k, hash) else NoneLive(records, hash)
  {
    if records != [] && !Live(records[0], hash) {
      ActiveWithDecides(records[1..], hash);
      assert records == [records[0]] + records[1..];
    }
  }

  /** What a scope covers, spelled out. */
  ghost predicate Covers(scope: Scope, need: Need) {
    match need
    case AnyScope => true
    case GlobalScope => scope == Global
    case AllChains(asked) =>
      scope == Global || (scope.Chains? && forall i :: 0 <= i < |asked| ==> asked[i] in scope.keys)
  }

  lemma CoversIffMet(scope: Scope, need: Need)
    ensures need.MetBy(scope) <==> Covers(scope, need)
  {
  }

  /** A request is granted exactly when the first active record with the token's hash covers it. */
  lemma GrantedIff(s: Store, hash: Hash, interval: int, token: string, need: Need, now: int, instant: int)
    ensures var reply := Buffered(s, hash, interval, Command.Authorize(token, need), now, instant).1;
            && (reply == Allowed(true) <==>
               exists k: nat :: Decides(s.file, k, hash(token)) && Covers(s.file[k].scope, need))
            && (reply != Allowed(true) ==> reply == Allowed(false))
  {
    ActiveWithDecides(s.file, hash(token));
    hide ActiveWith, Store.NoteUse;
    var k := ActiveWith(s.file, hash(token));
    if k < |s.file| {
      CoversIffMet(s.file[k].scope, need);
      assert forall j: nat :: Decides(s.file, j, hash(token)) ==> j == k;
    }
  }

  /** Authenticating and looking a scope up answer with the scope of the deciding record, when there is one. */
  lemma ScopeToldIff(s: Store, hash: Hash, interval: int, token: string, now: int, instant: int, scope: Scope)
    ensures var told := exists k: nat :: Decides(s.file, k, hash(token)) && s.file[k].scope == scope;
            && (Buffered(s, hash, interval, Command.Authenticate(token), now, instant).1 == ScopeIs(Some(scope)) <==>
               told)
            && (Buffered(s, hash, interval, ActiveScope(token), now, instant).1 == ScopeIs(Some(scope)) <==> told)
  {
    ActiveWithDecides(s.file, hash(token));
    hide ActiveWith, Store.NoteUse;
    var k := ActiveWith(s.file, hash(token));
    if k < |s.file| {
      assert forall j: nat :: Decides(s.file, j, hash(token)) ==> j == k;
    }
  }

  /** A granted use makes the last-use time shown for every record of that alias the later of what was shown and
      now; nothing else that is shown changes. */
  lemma UseIsShown(s: Store, hash: Hash, interval: int, token: string, need: Need, now: int, instant: int, j: nat)
    requires Settled(s, now) && j < |s.file|
    ensures var (after, reply) := Buffered(s, hash, interval, Command.Authorize(token, need), now, instant);
            var before := s.Held()[j];
            && |after.Held()| == |s.Held()|
            && (reply == Allowed(true) ==>
                  exists k: nat :: Decides(s.file, k, hash(token)) &&
                    after.Held()[j] ==
                      if before.alias != s.file[k].alias then before
                      else if before.lastUsedAt.Some? && before.lastUsedAt.value >= now then before
                      else before.(lastUsedAt := Some(now)))
            && (reply != Allowed(true) ==> after == s)
  {
    ActiveWithDecides(s.file, hash(token));
    hide ActiveWith, Store.NoteUse;
    var k := ActiveWith(s.file, hash(token));
    if k < |s.file| && need.MetBy(s.file[k].scope) {
      UseMatches(s, k, now, instant, interval);
    }
  }

  /** After a granted use everything shown is on disk, if the persist interval had passed since the last write;
      otherwise the file is as it was. So no more than one interval of uses is ever held in memory alone. */
  lemma UseIsWritten(s: Store, hash: Hash, interval: int, token: string, need: Need, now: int, instant: int)
    ensures var (after, reply) := Buffered(s, hash, interval, Command.Authorize(token, need), now, instant);
            reply == Allowed(true) ==>
              if instant - s.lastPersist >= interval then
                after.file == after.Held() && after.pending == map[] && after.lastPersist == instant
              else after.file == s.file && after.lastPersist == s.lastPersist
  {
    hide ActiveWith, Need.MetBy, Overlaid;
    var k := ActiveWith(s.file, hash(token));
    if k < |s.file| {
      OverlayNothing(Overlay(s.file, s.pending[s.file[k].alias := now]));
    }
  }

  /** Revoking marks the first record with the alias and leaves every other one shown as it was; deleting takes
      that record away. Either fails exactly for an alias that is none or that no record has. */
  lemma EndedIs(s: Store, hash: Hash, interval: int, alias: string, now: int, instant: int)
    ensures var found := ValidAlias(alias) && exists k :: 0 <= k < |s.file| && s.file[k].alias == alias;
            var (revoked, answer) := Buffered(s, hash, interval, Command.Revoke(alias), now, instant);
            var (deleted, reply) := Buffered(s, hash, interval, Command.Delete(alias), now, instant);
            && (answer.Changed? <==> found) && (reply.Changed? <==> found)
            && (!found ==> answer.Failed? && reply.Failed? && revoked == s && deleted == s)
            && (found ==>
                  exists k: nat :: FirstWith(s.file, k, alias)
                    && revoked.Held() == s.Held()[k := s.Held()[k].(revokedAt := Some(now))]
                    && deleted.Held() == s.Held()[..k] + s.Held()[k + 1..])
  {
    WithAliasFinds(s.file, alias);
    hide WithAlias, ValidAlias, Overlaid;
    var k := WithAlias(s.file, alias);
    if k < |s.file| {
      RevokeMatches(s, k, instant, now);
      DeleteMatches(s, k, instant);
      hide Store.Saved;
      assert FirstWith(s.file, k, alias);
    }
  }

  /** The first record with this alias is the `k`-th. */
  ghost predicate FirstWith(records: seq<Record>, k: nat, alias: string) {
    k < |records| && records[k].alias == alias && forall j :: 0 <= j < k ==> records[j].alias != alias
  }

  // ----- Revoked and deleted tokens

  /** The answer to a request with a token of this hash lets nobody in. */
  predicate Refuses(c: Command, reply: Reply, hash: Hash, h: string) {
    match c
    case Authorize(token, _) => hash(token) == h ==> reply == Allowed(false)
    case Authenticate(token) => hash(token) == h ==> reply == ScopeIs(None)
    case ActiveScope(token) => hash(token) == h ==> reply == ScopeIs(None)
    case _ => true
  }

  predicate Creates(c: Command, hash: Hash, h: string) {
    c.Create? && hash(c.token) == h
  }

  lemma SavedLive(s: Store, records: seq<Record>, instant: int, h: string)
    ensures NoneLive(s.Saved(records, instant).file, h) <==> NoneLive(records, h)
  {
    var saved := s.Saved(records, instant).file;
    assert |saved| == |records| && forall k :: 0 <= k < |records| ==> (Live(saved[k], h) <==> Live(records[k], h));
  }

  /** Without an active record for a hash, one command refuses its token and, unless it creates one, leaves none. */
  lemma StepRefuses(s: Store, hash: Hash, interval: int, c: Command, now: int, instant: int, h: string)
    requires NoneLive(s.file, h) && !Creates(c, hash, h)
    ensures var (after, reply) := Buffered(s, hash, interval, c, now, instant);
            NoneLive(after.file, h) && Refuses(c, reply, hash, h)
  {
    ActiveWithDecides(s.file, h);
    hide ActiveWith, WithAlias, ValidAlias, Scope.Acceptable, Store.Saved;
    SavedLive(s, s.file, instant, h);
    match c
    case Create(alias, scope, token) =>
      SavedLive(s, s.file + [NewRecord(alias, hash(token), now, scope)], instant, h);
    case Revoke(alias) =>
      var k := WithAlias(s.file, alias);
      if k < |s.file| {
        SavedLive(s, s.file[k := s.file[k].(revokedAt := Some(now))], instant, h);
      }
    case Delete(alias) =>
      var k := WithAlias(s.file, alias);
      if k < |s.file| {
        SavedLive(s, Without(s.file, k), instant, h);
      }
    case Authorize(token, need) => UseRefuses(s, hash, interval, token, now, instant, h);
    case Authenticate(token) => UseRefuses(s, hash, interval, token, now, instant, h);
    case _ =>
  }

  lemma UseRefuses(s: Store, hash: Hash, interval: int, token: string, now: int, instant: int, h: string)
    requires NoneLive(s.file, h)
    ensures forall alias :: NoneLive(s.NoteUse(alias, now, instant, interval).file, h)
  {
    forall alias
      ensures NoneLive(s.NoteUse(alias, now, instant, interval).file, h)
    {
      SavedLive(s.(pending := s.pending[alias := now]), s.file, instant, h);
    }
  }

  lemma {:induction false} RunRefuses(s: Store, hash: Hash, interval: int, run: seq<Timed>, h: string)
    requires NoneLive(s.file, h) && forall k :: 0 <= k < |run| ==> !Creates(run[k].command, hash, h)
    ensures var (last, replies) := RunBuffered(s, hash, interval, run);
            forall k :: 0 <= k < |run| ==> Refuses(run[k].command, replies[k], hash, h)
    decreases |run|
  {
    hide Buffered, NoneLive, Refuses, Creates;
    if run != [] {
      StepRefuses(s, hash, interval, run[0].command, run[0].now, run[0].instant, h);
      var after := Buffered(s, hash, interval, run[0].command, run[0].now, run[0].instant).0;
      RunRefuses(after, hash, interval, run[1..], h);
    }
  }

  /** The record with `alias` is the only active one with this token hash. */
  ghost predicate OnlyLive(records: seq<Record>, alias: string, h: string) {
    forall k :: 0 <= k < |records| && Live(records[k], h) ==>
      records[k].alias == alias && forall j :: 0 <= j < k ==> records[j].alias != alias
  }

  /** Once the only active record of a token was revoked or deleted, every later request with that token is
      refused, in every run that creates no record for it. */
  lemma {:induction false} EndedIsRefused(s: Store, hash: Hash, interval: int, end: Timed, run: seq<Timed>,
                                          alias: string, h: string)
    requires end.command == Command.Revoke(alias) || end.command == Command.Delete(alias)
    requires OnlyLive(s.file, alias, h)
    requires Buffered(s, hash, interval, end.command, end.now, end.instant).1.Changed?
    requires forall k :: 0 <= k < |run| ==> !Creates(run[k].command, hash, h)
    ensures var after := Buffered(s, hash, interval, end.command, end.now, end.instant).0;
            var (last, replies) := RunBuffered(after, hash, interval, run);
            forall k :: 0 <= k < |run| ==> Refuses(run[k].command, replies[k], hash, h)
  {
    hide RunBuffered, Refuses, Creates;
    WithAliasFinds(s.file, alias);
    hide WithAlias;
    var k := WithAlias(s.file, alias);
    var records := if end.command.Revoke? then s.file[k := s.file[k].(revokedAt := Some(end.now))]
                   else Without(s.file, k);
    assert NoneLive(records, h);
    SavedLive(s, records, end.instant, h);
    hide NoneLive, Store.Saved;
    RunRefuses(Buffered(s, hash, interval, end.command, end.now, end.instant).0, hash, interval, run, h);
  }

  // ----- New tokens

  predicate PlainChar(c: char) {
    'a' <= c <= 'z' || 'A' <= c <= 'Z' || '0' <= c <= '9' || c in "-_."
  }

  /** Creating succeeds exactly for a new alias of letters, digits, `-`, `_` and `.`, and a scope that names some
      chain; otherwise nothing changes. */
  lemma CreateIff(s: Store, hash: Hash, interval: int, alias: string, scope: Scope, token: string, now: int,
                  instant: int)
    ensures var (after, reply) := Buffered(s, hash, interval, Command.Create(alias, scope, token), now, instant);
            && (reply == Created(Record(alias, hash(token), now, None, None, scope)) <==>
               && alias != "" && (forall k :: 0 <= k < |alias| ==> PlainChar(alias[k]))
               && (scope.Chains? ==> scope.keys != [] && forall k :: 0 <= k < |scope.keys| ==>
                  Trim(scope.keys[k]) != "")
               && forall k :: 0 <= k < |s.file| ==> s.file[k].alias != alias)
            && (!reply.Created? ==> reply.Failed? && after == s)
  {
    WithAliasFinds(s.file, alias);
    hide WithAlias, Trim;
    assert forall k :: 0 <= k < |alias| ==> (AliasChar(alias[k]) <==> PlainChar(alias[k]));
    hide AliasChar, PlainChar, Store.Saved;
  }

  /** From then on a token that nothing else answers to is granted what the scope covers. */
  lemma CreatedIsGranted(s: Store, hash: Hash, interval: int, alias: string, scope: Scope, token: string, now: int,
                         instant: int, need: Need, later: int, tick: int)
    requires NoneLive(s.file, hash(token))
    requires Buffered(s, hash, interval, Command.Create(alias, scope, token), now, instant).1.Created?
    ensures var after := Buffered(s, hash, interval, Command.Create(alias, scope, token), now, instant).0;
            Buffered(after, hash, interval, Command.Authorize(token, need), later, tick).1 == Allowed(true) <==>
            Covers(scope, need)
  {
    var after := Buffered(s, hash, interval, Command.Create(alias, scope, token), now, instant).0;
    GrantedIff(after, hash, interval, token, need, later, tick);
    NewDecides(s, NewRecord(alias, hash(token), now, scope), instant);
    hide NoneLive, Decides, Covers, Store.Saved, ActiveWith, WithAlias, ValidAlias, Scope.Acceptable;
  }

  /** A record saved at the end of a file without another active one for its hash decides. */
  lemma NewDecides(s: Store, record: Record, instant: int)
    requires NoneLive(s.file, record.tokenHash) && record.revokedAt.None?
    ensures var file := s.Saved(s.file + [record], instant).file;
            && Decides(file, |s.file|, record.tokenHash) && file[|s.file|].scope == record.scope
            && forall k: nat :: Decides(file, k, record.tokenHash) ==> k == |s.file|
  {
    var file := s.Saved(s.file + [record], instant).file;
    assert forall k :: 0 <= k < |s.file| ==> (Live(file[k], record.tokenHash) <==> Live(s.file[k], record.tokenHash));
  }
}
