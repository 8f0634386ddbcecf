/** The bearer-token registry, which keeps last-use times in memory between writes of its file. */
module TokenStore {
  import opened Wrappers
  import opened Text

  datatype Scope = Global | Chains(keys: seq<string>) {
    predicate AllowsChain(key: string) {
      Global? || key in keys
    }

    /** No chain key is blank, and there is one. */
    predicate Acceptable() {
      Chains? ==> keys != [] && forall k :: 0 <= k < |keys| ==> Trim(keys[k]) != ""
    }
  }

  datatype Record = Record(alias: string, tokenHash: string, createdAt: int, lastUsedAt: Option<int>,
                           revokedAt: Option<int>, scope: Scope)

  datatype Error = InvalidAlias | InvalidScope | AliasExists | AliasNotFound

  /** What a request must be allowed: any record will do, all these chains, or everything. */
  datatype Need = AnyScope | AllChains(keys: seq<string>) | GlobalScope {
    predicate MetBy(scope: Scope) {
      match this
      case AnyScope => true
      case AllChains(keys) => forall k :: 0 <= k < |keys| ==> scope.AllowsChain(keys[k])
      case GlobalScope => scope.Global?
    }
  }

  predicate AliasChar(c: char) {
    '0' <= c <= '9' || 'a' <= c <= 'z' || 'A' <= c <= 'Z' || c == '-' || c == '_' || c == '.'
  }

  predicate ValidAlias(alias: string) {
    alias != [] && forall k :: 0 <= k < |alias| ==> AliasChar(alias[k])
  }

  /** The first record with `alias`; the number of records when there is none. */
  function WithAlias(records: seq<Record>, alias: string): (k: nat)
    ensures k <= |records|
  {
    if records == [] || records[0].alias == alias then 0 else 1 + WithAlias(records[1..], alias)
  }

  /** The first active record for a token hash; the number of records when there is none. */
  function ActiveWith(records: seq<Record>, hash: string): (k: nat)
    ensures k <= |records|
    ensures k < |records| ==> records[k].revokedAt.None? && records[k].tokenHash == hash
  {
    if records == [] || (records[0].revokedAt.None? && records[0].tokenHash == hash) then 0
    else 1 + ActiveWith(records[1..], hash)
  }

  // ----- A registry that writes every use at once

  function Later(known: Option<int>, time: int): Option<int> {
    if known.None? || known.value < time then Some(time) else known
  }

  function UsedAt(record: Record, alias: string, now: int): Record {
    if record.alias == alias then record.(lastUsedAt := Later(record.lastUsedAt, now)) else record
  }

  function UseAlias(records: seq<Record>, alias: string, now: int): seq<Record> {
    seq(|records|, k requires 0 <= k < |records| => UsedAt(records[k], alias, now))
  }

  datatype Command =
    | Create(alias: string, scope: Scope, token: string)
    | Revoke(alias: string)
    | Delete(alias: string)
    | List
    | Authorize(token: string, need: Need)
    | Authenticate(token: string)
    | ActiveScope(token: string)
    | Flush

  datatype Reply =
    | Created(record: Record)
    | Changed(before: Record)
    | Listed(records: seq<Record>)
    | Allowed(yes: bool)
    | ScopeIs(scope: Option<Scope>)
    | Failed(error: Error)
    | Done

  type Hash = string -> string

  function NewRecord(alias: string, hash: string, now: int, scope: Scope): Record {
    Record(alias, hash, now, None, None, scope)
  }

  function Without(records: seq<Record>, k: nat): seq<Record>
    requires k < |records|
  {
    records[..k] + records[k + 1..]
  }

  /** One command on a registry that writes every use at once. */
  function Direct(records: seq<Record>, hash: Hash, c: Command, now: int): (seq<Record>, Reply) {
    match c
    case Create(alias, scope, token) =>
      if !ValidAlias(alias) then (records, Failed(InvalidAlias))
      else if !scope.Acceptable() then (records, Failed(InvalidScope))
      else if WithAlias(records, alias) < |records| then (records, Failed(AliasExists))
      else
        var record := NewRecord(alias, hash(token), now, scope);
        (records + [record], Created(record))
    case Revoke(alias) =>
      var k := WithAlias(records, alias);
      if !ValidAlias(alias) then (records, Failed(InvalidAlias))
      else if k == |records| then (records, Failed(AliasNotFound))
      else
        var record := records[k].(revokedAt := Some(now));
        (records[k := record], Changed(record))
    case Delete(alias) =>
      var k := WithAlias(records, alias);
      if !ValidAlias(alias) then (records, Failed(InvalidAlias))
      else if k == |records| then (records, Failed(AliasNotFound))
      else (Without(records, k), Changed(records[k]))
    case List => (records, Listed(records))
    case Authorize(token, need) =>
      var k := ActiveWith(records, hash(token));
      if k == |records| || !need.MetBy(records[k].scope) then (records, Allowed(false))
      else (UseAlias(records, records[k].alias, now), Allowed(true))
    case Authenticate(token) =>
      var k := ActiveWith(records, hash(token));
      if k == |records| then (records, ScopeIs(None))
      else (UseAlias(records, records[k].alias, now), ScopeIs(Some(records[k].scope)))
    case ActiveScope(token) =>
      var k := ActiveWith(records, hash(token));
      (records, ScopeIs(if k == |records| then None else Some(records[k].scope)))
    case Flush => (records, Done)
  }

  // ----- The registry with buffered last-use times

  type Pending = map<string, int>

  function Overlaid(record: Record, pending: Pending): Record {
    if record.alias in pending then record.(lastUsedAt := Later(record.lastUsedAt, pending[record.alias])) else record
  }

  /** Newest wins. */
  function Overlay(records: seq<Record>, pending: Pending): seq<Record> {
    seq(|records|, k requires 0 <= k < |records| => Overlaid(records[k], pending))
  }

  /** `file` is what is on disk, saved last at time `lastPersist`. */
  datatype Store = Store(file: seq<Record>, pending: Pending, lastPersist: int) {

    /** Whatever is written takes the buffered times along. */
    function Saved(records: seq<Record>, instant: int): Store {
      Store(Overlay(records, pending), map[], instant)
    }

    function NoteUse(alias: string, now: int, instant: int, interval: int): Store {
      var noted := this.(pending := pending[alias := now]);
      if instant - lastPersist >= interval then noted.Saved(file, instant) else noted
    }

    /** What the registry holds for its readers. */
    function Held(): seq<Record> {
      Overlay(file, pending)
    }
  }

  /** One command on the buffered registry, at clock time `now` and instant `instant`. */
  function Buffered(s: Store, hash: Hash, interval: int, c: Command, now: int, instant: int): (Store, Reply) {
    match c
    case Create(alias, scope, token) =>
      if !ValidAlias(alias) then (s, Failed(InvalidAlias))
      else if !scope.Acceptable() then (s, Failed(InvalidScope))
      else if WithAlias(s.file, alias) < |s.file| then (s, Failed(AliasExists))
      else
        var record := NewRecord(alias, hash(token), now, scope);
        (s.Saved(s.file + [record], instant), Created(record))
    case Revoke(alias) =>
      var k := WithAlias(s.file, alias);
      if !ValidAlias(alias) then (s, Failed(InvalidAlias))
      else if k == |s.file| then (s, Failed(AliasNotFound))
      else
        var record := s.file[k].(revokedAt := Some(now));
        (s.Saved(s.file[k := record], instant), Changed(record))
    case Delete(alias) =>
      var k := WithAlias(s.file, alias);
      if !ValidAlias(alias) then (s, Failed(InvalidAlias))
      else if k == |s.file| then (s, Failed(AliasNotFound))
      else (s.Saved(Without(s.file, k), instant), Changed(s.file[k]))
    case List => (s, Listed(s.Held()))
    case Authorize(token, need) =>
      var k := ActiveWith(s.file, hash(token));
      if k == |s.file| || !need.MetBy(s.file[k].scope) then (s, Allowed(false))
      else (s.NoteUse(s.file[k].alias, now, instant, interval), Allowed(true))
    case Authenticate(token) =>
      var k := ActiveWith(s.file, hash(token));
      if k == |s.file| then (s, ScopeIs(None))
      else (s.NoteUse(s.file[k].alias, now, instant, interval), ScopeIs(Some(s.file[k].scope)))
    case ActiveScope(token) =>
      var k := ActiveWith(s.file, hash(token));
      (s, ScopeIs(if k == |s.file| then None else Some(s.file[k].scope)))
    case Flush => (if s.pending == map[] then s else s.Saved(s.file, instant), Done)
  }

  class BearerTokenStore {
    const hash: Hash
    const persistInterval: int
    var file: seq<Record>
    var pending: Pending
    var lastPersist: int

    ghost function Model(): Store
      reads this
    {
      Store(file, pending, lastPersist)
    }

    /** What one command does to the store and answers. */
    twostate predicate Does(c: Command, now: int, instant: int, reply: Reply)
      reads this
    {
      (Model(), reply) == Buffered(old(Model()), hash, persistInterval, c, now, instant)
    }

    constructor (hash: Hash, persistInterval: int, file: seq<Record>, instant: int)
      ensures this.hash == hash && this.persistInterval == persistInterval
      ensures Model() == Store(file, map[], instant)
    {
      this.hash, this.persistInterval := hash, persistInterval;
      this.file, pending, lastPersist := file, map[], instant;
    }

    method OverlayLastUsed(records: seq<Record>) returns (overlaid: seq<Record>)
      ensures overlaid == Overlay(records, pending)
    {
      overlaid := records;
      for k := 0 to |records|
        invariant |overlaid| == |records|
        invariant forall j :: 0 <= j < |records| ==>
                  overlaid[j] == if j < k then Overlaid(records[j], pending) else records[j]
      {
        var alias := overlaid[k].alias;
        if alias in pending {
          var known := overlaid[k].lastUsedAt;
          if known.None? || known.value < pending[alias] {
            overlaid := overlaid[k := overlaid[k].(lastUsedAt := Some(pending[alias]))];
          }
        }
      }
    }

    method SaveRecords(records: seq<Record>, instant: int)
      modifies this
      ensures Model() == old(Model()).Saved(records, instant)
    {
      file := OverlayLastUsed(records);
      pending := map[];
      lastPersist := instant;
    }

    method NoteUse(alias: string, now: int, instant: int)
      modifies this
      ensures Model() == old(Model()).NoteUse(alias, now, instant, persistInterval)
    {
      pending := pending[alias := now];
      if instant - lastPersist >= persistInterval {
        SaveRecords(file, instant);
      }
    }

    method Create(alias: string, scope: Scope, token: string, now: int, instant: int) returns (reply: Reply)
      modifies this
      ensures Does(Command.Create(alias, scope, token), now, instant, reply)
    {
      if !ValidAlias(alias) {
        return Failed(InvalidAlias);
      }
      if !scope.Acceptable() {
        return Failed(InvalidScope);
      }
      if WithAlias(file, alias) < |file| {
        return Failed(AliasExists);
      }
      var record := NewRecord(alias, hash(token), now, scope);
      SaveRecords(file + [record], instant);
      return Created(record);
    }

    method List() returns (reply: Reply)
      ensures forall now, instant ::
                Buffered(Model(), hash, persistInterval, Command.List, now, instant) == (Model(), reply)
    {
      var records := OverlayLastUsed(file);
      return Listed(records);
    }

    method Revoke(alias: string, now: int, instant: int) returns (reply: Reply)
      modifies this
      ensures Does(Command.Revoke(alias), now, instant, reply)
    {
      if !ValidAlias(alias) {
        return Failed(InvalidAlias);
      }
      var k := WithAlias(file, alias);
      if k == |file| {
        return Failed(AliasNotFound);
      }
      var records := file[k := file[k].(revokedAt := Some(now))];
      var record := records[k];
      SaveRecords(records, instant);
      return Changed(record);
    }

    method Delete(alias: string, now: int, instant: int) returns (reply: Reply)
      modifies this
      ensures Does(Command.Delete(alias), now, instant, reply)
    {
      if !ValidAlias(alias) {
        return Failed(InvalidAlias);
      }
      var k := WithAlias(file, alias);
      if k == |file| {
        return Failed(AliasNotFound);
      }
      var record := file[k];
      SaveRecords(file[..k] + file[k + 1..], instant);
      return Changed(record);
    }

    method Authorize(token: string, need: Need, now: int, instant: int) returns (reply: Reply)
      modifies this
      ensures Does(Command.Authorize(token, need), now, instant, reply)
    {
      var k := ActiveWith(file, hash(token));
      if k == |file| || !need.MetBy(file[k].scope) {
        return Allowed(false);
      }
      NoteUse(file[k].alias, now, instant);
      return Allowed(true);
    }

    method Authenticate(token: string, now: int, instant: int) returns (reply: Reply)
      modifies this
      ensures Does(Command.Authenticate(token), now, instant, reply)
    {
      var k := ActiveWith(file, hash(token));
      if k == |file| {
        return ScopeIs(None);
      }
      var scope := file[k].scope;
      NoteUse(file[k].alias, now, instant);
      return ScopeIs(Some(scope));
    }

    method FlushLastUsed(now: int, instant: int)
      modifies this
      ensures Does(Command.Flush, now, instant, Done)
    {
      if pending != map[] {
        SaveRecords(file, instant);
      }
    }
  }

  // ----- Buffering does not show

  /** The last-use time on file for `alias`. */
  function OnFile(s: Store, alias: string): Option<int> {
    var k := WithAlias(s.file, alias);
    if k < |s.file| then s.file[k].lastUsedAt else None
  }

  /** `b`, given by the buffered registry in state `s`, is `a` but for the last-use time of a record just
      revoked or deleted: that is the one on file, without what is buffered. */
  ghost predicate Matches(s: Store, a: Reply, b: Reply) {
    if a.Changed? then
      b == Changed(a.before.(lastUsedAt := OnFile(s, a.before.alias))) && a.before == Overlaid(b.before, s.pending)
    else a == b
  }

  /** Every buffered time is for a record on file, and none is later than `now`. */
  ghost predicate Settled(s: Store, now: int) {
    forall alias :: alias in s.pending ==> s.pending[alias] <= now && WithAlias(s.file, alias) < |s.file|
  }

  lemma {:induction false} SameFound(records: seq<Record>, pending: Pending, alias: string, hash: string)
    ensures WithAlias(Overlay(records, pending), alias) == WithAlias(records, alias)
    ensures ActiveWith(Overlay(records, pending), hash) == ActiveWith(records, hash)
  {
    if records != [] {
      SameFound(records[1..], pending, alias, hash);
      assert Overlay(records, pending)[1..] == Overlay(records[1..], pending);
    }
  }

  lemma OverlayNothing(records: seq<Record>)
    ensures Overlay(records, map[]) == records
  {
  }

  /** Buffering one more use shows as writing it at once exactly when no record whose buffered time it
      replaces would go back. */
  lemma UseShowsIff(records: seq<Record>, pending: Pending, alias: string, now: int)
    ensures Overlay(records, pending[alias := now]) == UseAlias(Overlay(records, pending), alias, now) <==>
            alias !in pending || pending[alias] <= now ||
            forall k :: 0 <= k < |records| && records[k].alias == alias ==>
              records[k].lastUsedAt.Some? && pending[alias] <= records[k].lastUsedAt.value
  {
    var a, b := Overlay(records, pending[alias := now]), UseAlias(Overlay(records, pending), alias, now);
    forall k | 0 <= k < |records|
      ensures a[k] == b[k] <==>
              alias !in pending || pending[alias] <= now || records[k].alias != alias ||
              (records[k].lastUsedAt.Some? && pending[alias] <= records[k].lastUsedAt.value)
    {
    }
    assert a == b <==> forall k :: 0 <= k < |records| ==> a[k] == b[k];
  }

  lemma {:induction false} WithAliasFinds(records: seq<Record>, alias: string)
    ensures WithAlias(records, alias) < |records| ==> records[WithAlias(records, alias)].alias == alias
    ensures forall k :: 0 <= k < |records| && records[k].alias == alias ==> WithAlias(records, alias) <= k
  {
    if records != [] && records[0].alias != alias {
      WithAliasFinds(records[1..], alias);
    }
  }

  /** Writing the file leaves nothing buffered, and readers see what was written with the buffered times. */
  lemma SavedHolds(s: Store, records: seq<Record>, instant: int)
    ensures s.Saved(records, instant).Held() == Overlay(records, s.pending)
  {
    OverlayNothing(Overlay(records, s.pending));
  }

  lemma CreateMatches(s: Store, record: Record, instant: int, now: int)
    requires Settled(s, now) && WithAlias(s.file, record.alias) == |s.file|
    ensures s.Saved(s.file + [record], instant).Held() == s.Held() + [record]
  {
    SavedHolds(s, s.file + [record], instant);
  }

  lemma DeleteMatches(s: Store, k: nat, instant: int)
    requires k < |s.file|
    ensures s.Saved(Without(s.file, k), instant).Held() == Without(s.Held(), k)
  {
    SavedHolds(s, Without(s.file, k), instant);
  }

  lemma RevokeMatches(s: Store, k: nat, instant: int, now: int)
    requires k < |s.file|
    ensures s.Saved(s.file[k := s.file[k].(revokedAt := Some(now))], instant).Held() ==
            s.Held()[k := s.Held()[k].(revokedAt := Some(now))]
  {
    SavedHolds(s, s.file[k := s.file[k].(revokedAt := Some(now))], instant);
  }

  lemma UseMatches(s: Store, k: nat, now: int, instant: int, interval: int)
    requires Settled(s, now) && k < |s.file|
    ensures var after := s.NoteUse(s.file[k].alias, now, instant, interval);
            after.Held() == UseAlias(s.Held(), s.file[k].alias, now) && Settled(after, now)
  {
    WithAliasFinds(s.file, s.file[k].alias);
    UseShowsIff(s.file, s.pending, s.file[k].alias, now);
    hide Overlay, UseAlias;
    var noted := s.(pending := s.pending[s.file[k].alias := now]);
    SavedHolds(noted, noted.file, instant);
  }

  /** One command: the replies match, and the stores still hold the same. */
  lemma StepMatches(s: Store, hash: Hash, interval: int, c: Command, now: int, instant: int)
    requires Settled(s, now)
    ensures var (after, reply) := Buffered(s, hash, interval, c, now, instant);
            var (records, direct) := Direct(s.Held(), hash, c, now);
            after.Held() == records && Matches(s, direct, reply) && Settled(after, now)
  {
    hide ActiveWith, WithAlias, Without, ValidAlias, Scope.Acceptable, UseAlias, Store.NoteUse, Store.Saved;
    SameSize(s);
    hide Overlaid, Overlay;
    match c
    case Create(alias, scope, token) =>
      SameFound(s.file, s.pending, alias, "");
      if WithAlias(s.file, alias) == |s.file| {
        CreateMatches(s, NewRecord(alias, hash(token), now, scope), instant, now);
        SavedSettles(s, s.file + [NewRecord(alias, hash(token), now, scope)], instant, now);
      }
    case Revoke(alias) =>
      SameFound(s.file, s.pending, alias, "");
      var k := WithAlias(s.file, alias);
      if k < |s.file| {
        RevokeMatches(s, k, instant, now);
        ChangedMatches(s, alias, Some(now));
        hide Matches;
        SavedSettles(s, s.file[k := s.file[k].(revokedAt := Some(now))], instant, now);
      }
    case Delete(alias) =>
      SameFound(s.file, s.pending, alias, "");
      var k := WithAlias(s.file, alias);
      if k < |s.file| {
        DeleteMatches(s, k, instant);
        ChangedMatches(s, alias, s.file[k].revokedAt);
        hide Matches;
        SavedSettles(s, Without(s.file, k), instant, now);
      }
    case List =>
    case Authorize(token, need) =>
      SameFound(s.file, s.pending, "", hash(token));
      var k := ActiveWith(s.file, hash(token));
      if k < |s.file| {
        UseMatches(s, k, now, instant, interval);
      }
    case Authenticate(token) =>
      SameFound(s.file, s.pending, "", hash(token));
      var k := ActiveWith(s.file, hash(token));
      if k < |s.file| {
        UseMatches(s, k, now, instant, interval);
      }
    case ActiveScope(token) =>
      SameFound(s.file, s.pending, "", hash(token));
    case Flush =>
      SavedHolds(s, s.file, instant);
      SavedSettles(s, s.file, instant, now);
  }

  lemma SavedSettles(s: Store, records: seq<Record>, instant: int, now: int)
    ensures Settled(s.Saved(records, instant), now)
  {
  }

  /** The buffered times change nothing but last-use times. */
  lemma SameSize(s: Store)
    ensures |s.Held()| == |s.file|
    ensures forall k :: 0 <= k < |s.file| ==> s.file[k] == s.Held()[k].(lastUsedAt := s.file[k].lastUsedAt)
  {
  }

  /** The replies to a command that changes the first record with `alias`. */
  lemma ChangedMatches(s: Store, alias: string, revokedAt: Option<int>)
    requires WithAlias(s.file, alias) < |s.file|
    ensures var k := WithAlias(s.file, alias);
            Matches(s, Changed(s.Held()[k].(revokedAt := revokedAt)), Changed(s.file[k].(revokedAt := revokedAt)))
  {
    WithAliasFinds(s.file, alias);
    hide WithAlias;
  }

  // ----- Whole runs

  /** A command with the wall-clock time and the monotonic instant it runs at. */
  datatype Timed = Timed(command: Command, now: int, instant: int)

  /** The clock is never set back. */
  ghost predicate Forward(run: seq<Timed>) {
    forall j, k :: 0 <= j < k < |run| ==> run[j].now <= run[k].now
  }

  function RunBuffered(s: Store, hash: Hash, interval: int, run: seq<Timed>): (r: (Store, seq<Reply>))
    ensures |r.1| == |run|
    decreases |run|
  {
    if run == [] then (s, [])
    else
      var (after, reply) := Buffered(s, hash, interval, run[0].command, run[0].now, run[0].instant);
      var (last, replies) := RunBuffered(after, hash, interval, run[1..]);
      (last, [reply] + replies)
  }

  function RunDirect(records: seq<Record>, hash: Hash, run: seq<Timed>): (r: (seq<Record>, seq<Reply>))
    ensures |r.1| == |run|
    decreases |run|
  {
    if run == [] then (records, [])
    else
      var (after, reply) := Direct(records, hash, run[0].command, run[0].now);
      var (last, replies) := RunDirect(after, hash, run[1..]);
      (last, [reply] + replies)
  }

  /** The buffered store when the `k`-th command of a run comes. */
  function StoreBefore(s: Store, hash: Hash, interval: int, run: seq<Timed>, k: nat): Store
    requires k <= |run|
    decreases k
  {
    if k == 0 then s
    else StoreBefore(Buffered(s, hash, interval, run[0].command, run[0].now, run[0].instant).0, hash, interval,
        run[1..], k - 1)
  }

  lemma SettledLater(s: Store, now: int, later: int)
    requires Settled(s, now) && now <= later
    ensures Settled(s, later)
  {
  }

  /** For every run with a clock that is never set back, and any persist interval, the buffered registry
      answers every command as one that writes every use at once, and holds the same in the end. */
  lemma {:induction false} BufferingDoesNotShow(s: Store, hash: Hash, interval: int, run: seq<Timed>)
    requires Forward(run) && (run != [] ==> Settled(s, run[0].now))
    ensures var (last, replies) := RunBuffered(s, hash, interval, run);
            var (records, direct) := RunDirect(s.Held(), hash, run);
            && last.Held() == records && |replies| == |direct| == |run|
            && forall k :: 0 <= k < |run| ==> Matches(StoreBefore(s, hash, interval, run, k), direct[k], replies[k])
    decreases |run|
  {
    hide Buffered, Direct, Settled, Matches, Store.Held;
    if run != [] {
      var after := Buffered(s, hash, interval, run[0].command, run[0].now, run[0].instant).0;
      StepMatches(s, hash, interval, run[0].command, run[0].now, run[0].instant);
      if |run| > 1 {
        SettledLater(after, run[0].now, run[1].now);
      }
      BufferingDoesNotShow(after, hash, interval, run[1..]);
      assert StoreBefore(s, hash, interval, run, 0) == s;
      assert forall k :: 0 < k < |run| ==>
               StoreBefore(s, hash, interval, run, k) == StoreBefore(after, hash, interval, run[1..], k - 1);
    }
  }

  /** From a store just opened on a registry file. */
  lemma OpenedStoreDoesNotShow(file: seq<Record>, hash: Hash, interval: int, start: int, run: seq<Timed>)
    requires Forward(run)
    ensures var (last, replies) := RunBuffered(Store(file, map[], start), hash, interval, run);
            var (records, direct) := RunDirect(file, hash, run);
            && last.Held() == records && |replies| == |direct| == |run|
            && forall k :: 0 <= k < |run| ==>
                 Matches(StoreBefore(Store(file, map[], start), hash, interval, run, k), direct[k], replies[k])
  {
    OverlayNothing(file);
    BufferingDoesNotShow(Store(file, map[], start), hash, interval, run);
  }

  /** A flush puts on disk exactly what readers are shown, so a restart right after it changes nothing. */
  lemma FlushPersists(s: Store, hash: Hash, interval: int, now: int, instant: int)
    ensures var after := Buffered(s, hash, interval, Command.Flush, now, instant).0;
            after.file == s.Held() && after.pending == map[] && after.Held() == s.Held()
  {
    OverlayNothing(s.file);
    OverlayNothing(s.Held());
  }

  /** With the clock set back the buffer shows: two uses, the second at an earlier time. */
  lemma ClockSetBackShows(record: Record, hash: Hash, token: string, now: int, interval: int)
    requires record.tokenHash == hash(token) && record.revokedAt.None? && record.lastUsedAt.None? && interval > 0
    ensures var use, again := Timed(Authenticate(token), now, 0), Timed(Authenticate(token), now - 1, 0);
            var run := [use, again, Timed(List, now, 0)];
            && RunDirect([record], hash, run).1[2] == Listed([record.(lastUsedAt := Some(now))])
            && RunBuffered(Store([record], map[], 0), hash, interval, run).1[2] ==
               Listed([record.(lastUsedAt := Some(now - 1))])
  {
    var use, again := Timed(Authenticate(token), now, 0), Timed(Authenticate(token), now - 1, 0);
    var list := Timed(List, now, 0);
    var once := record.(lastUsedAt := Some(now));
    assert UseAlias([record], record.alias, now) == [once] && UseAlias([once], record.alias, now - 1) == [once];
    assert [use, again, list][1..] == [again, list] && [again, list][1..] == [list];
    var s := Store([record], map[record.alias := now], 0);
    var t := Store([record], map[record.alias := now - 1], 0);
    assert Buffered(Store([record], map[], 0), hash, interval, use.command, now, 0).0 == s;
    assert Buffered(s, hash, interval, again.command, now - 1, 0).0 == t;
    assert t.Held() == [record.(lastUsedAt := Some(now - 1))];
    assert RunDirect([once], hash, [list]).1 == [Listed([once])];
    assert RunBuffered(t, hash, interval, [list]).1 == [Listed(t.Held())];
  }
}
