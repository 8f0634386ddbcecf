/** Importing the chains of a backup into an instance that already has chains. */
module Restore {
  import opened Wrappers
  import opened ChainNames

  // ----- Hash chains

  datatype Record = Record(index: nat, content: string, prevHash: string, hash: string)

  /** A chain file: one whose records pass verification, or one that does not open. */
  datatype ChainFile = Readable(records: seq<Record>) | Unreadable

  /** The functions an import relies on: the record digest, whether a chain is governed, and whether a
      governed chain may be extended by the records of a backup from a position on. */
  datatype Rules = Rules(naming: Naming, digest: (nat, string, string) -> string,
                         governed: seq<Record> -> bool, acceptable: (seq<Record>, nat) -> bool) {

    /** No two records have the same digest. */
    ghost predicate CollisionFree() {
      forall i, j, c, d, p, q :: digest(i, c, p) == digest(j, d, q) ==> i == j && c == d && p == q
    }

    ghost predicate LinkedAt(chain: seq<Record>, k: nat)
      requires k < |chain|
    {
      && chain[k].index == k
      && chain[k].prevHash == (if k == 0 then "" else chain[k - 1].hash)
      && chain[k].hash == digest(chain[k].index, chain[k].content, chain[k].prevHash)
    }

    ghost predicate WellLinked(chain: seq<Record>) {
      forall k :: 0 <= k < |chain| ==> LinkedAt(chain, k)
    }
  }

  datatype Relationship = Identical | BackupExtendsLocal(suffixStart: nat) | LocalExtendsBackup | Divergent

  /** How many records at the front of both chains have the same hash. */
  function Common(local: seq<Record>, backup: seq<Record>): (common: nat)
    ensures common <= |local| && common <= |backup|
    ensures forall k :: 0 <= k < common ==> local[k].hash == backup[k].hash
    ensures common < |local| && common < |backup| ==> local[common].hash != backup[common].hash
  {
    if local == [] || backup == [] || local[0].hash != backup[0].hash then 0
    else 1 + Common(local[1..], backup[1..])
  }

  function Classify(local: seq<Record>, backup: seq<Record>): (relationship: Relationship)
    ensures relationship.BackupExtendsLocal? ==> relationship.suffixStart == |local| < |backup|
  {
    var common := Common(local, backup);
    if common == |local| && common == |backup| then Identical
    else if common == |local| && common < |backup| &&
            backup[common].prevHash == (if local == [] then "" else local[|local| - 1].hash) then
              BackupExtendsLocal(common)
    else if common == |backup| then LocalExtendsBackup
    else Divergent
  }

  /** Well-linked chains with the same hash somewhere are the same up to there. */
  lemma {:induction false} SameHashSamePast(rules: Rules, a: seq<Record>, b: seq<Record>, k: nat)
    requires rules.CollisionFree() && rules.WellLinked(a) && rules.WellLinked(b)
    requires k < |a| && k < |b| && a[k].hash == b[k].hash
    ensures a[..k + 1] == b[..k + 1]
  {
    assert rules.LinkedAt(a, k) && rules.LinkedAt(b, k);
    if k > 0 {
      SameHashSamePast(rules, a, b, k - 1);
      assert a[..k + 1] == a[..k] + [a[k]] && b[..k + 1] == b[..k] + [b[k]];
    }
  }

  /** What each relationship says about two well-linked chains, exactly. */
  lemma ClassifyIs(rules: Rules, local: seq<Record>, backup: seq<Record>)
    requires rules.CollisionFree() && rules.WellLinked(local) && rules.WellLinked(backup)
    ensures Classify(local, backup) == Identical <==> local == backup
    ensures Classify(local, backup) == BackupExtendsLocal(|local|) <==> local < backup
    ensures Classify(local, backup).BackupExtendsLocal? ==> Classify(local, backup).suffixStart == |local|
    ensures Classify(local, backup) == LocalExtendsBackup <==> backup < local
    ensures Classify(local, backup) == Divergent <==> !(local <= backup) && !(backup <= local)
  {
    var common := Common(local, backup);
    if common > 0 {
      SameHashSamePast(rules, local, backup, common - 1);
    }
    assert local[..common] == backup[..common];
    assert local <= backup <==> common == |local|;
    assert backup <= local <==> common == |backup|;
    if common == |local| < |backup| {
      assert rules.LinkedAt(backup, common);
      assert common > 0 ==> local[common - 1].hash == backup[common - 1].hash;
    }
  }

  // ----- The directory

  datatype State = State(files: map<string, ChainFile>, registered: set<string>) {

    /** Every file that opens holds a verified chain. */
    ghost predicate Valid(rules: Rules) {
      rules.naming.Valid() && forall name :: name in files && files[name].Readable? ==>
        rules.WellLinked(files[name].records)
    }

    function KeysInUse(): set<string> {
      registered + set name | name in files && KeyOfFile(name).Some? :: KeyOfFile(name).value
    }

    function TakenNames(naming: Naming): Taken {
      Taken(naming, KeysInUse(), files.Keys)
    }

    /** Opening a chain registers it under the key its file name tells. */
    function Opened(naming: Naming, key: string): State {
      this.(registered := registered + {naming.Safe(key)})
    }

    /** A copied file is opened where it now is; one that does not open stays there unregistered. */
    function Copied(naming: Naming, key: string, staged: ChainFile): State {
      var copied := this.(files := files[naming.FileName(key) := staged]);
      if staged.Readable? then copied.Opened(naming, key) else copied
    }
  }

  datatype Outcome = Outcome(state: State, ok: bool)

  /** What importing a staged chain file as `key` does. */
  function ImportInto(rules: Rules, s: State, key: string, staged: ChainFile, overwrite: bool): Outcome
    requires rules.naming.Valid()
  {
    var naming, dest := rules.naming, rules.naming.FileName(key);
    if dest !in s.files then Outcome(s.Copied(naming, key, staged), staged.Readable?)
    else if staged.Unreadable? then Outcome(if overwrite then s.Copied(naming, key, staged) else s, true)
    else if s.files[dest].Unreadable? then
      Outcome(s.Copied(naming, if overwrite then key else NextKey(s.TakenNames(naming), key), staged), true)
    else
      var known, local := s.Opened(naming, key), s.files[dest].records;
      match Classify(local, staged.records)
      case Identical => Outcome(known, true)
      case LocalExtendsBackup => Outcome(known, true)
      case BackupExtendsLocal(start) =>
        if rules.governed(local) && !rules.acceptable(staged.records, start) then
          Outcome(known.Copied(naming, NextKey(known.TakenNames(naming), key), staged), true)
        else Outcome(known.(files := known.files[dest := Readable(local + staged.records[start..])]), true)
      case Divergent => Outcome(known.Copied(naming, NextKey(known.TakenNames(naming), key), staged), true)
  }

  class Directory {
    const rules: Rules
    var files: map<string, ChainFile>
    var registered: set<string>

    ghost function Model(): State
      reads this
    {
      State(files, registered)
    }

    constructor (rules: Rules, files: map<string, ChainFile>, registered: set<string>)
      ensures this.rules == rules && Model() == State(files, registered)
    {
      this.rules, this.files, this.registered := rules, files, registered;
    }

    method OpenWithKey(key: string) returns (chain: Option<seq<Record>>)
      requires rules.naming.FileName(key) in files
      modifies `registered
      ensures match old(files[rules.naming.FileName(key)])
              case Readable(records) => chain == Some(records) && Model() == old(Model()).Opened(rules.naming, key)
              case Unreadable => chain == None && Model() == old(Model())
    {
      match files[rules.naming.FileName(key)]
      case Readable(records) =>
        chain := Some(records);
        registered := registered + {rules.naming.Safe(key)};
      case Unreadable =>
        chain := None;
    }

    /** Copy the staged file to where `key` is stored, unless something is there that may not be
        overwritten; then open what is there. */
    method CopyChainBundle(staged: ChainFile, key: string, overwrite: bool) returns (ok: bool)
      modifies this
      ensures var dest := rules.naming.FileName(key);
              if overwrite || dest !in old(files) then
                && Model() == old(Model()).Copied(rules.naming, key, staged)
                && ok == staged.Readable?
              else
                && ok == old(files)[dest].Readable?
                && Model() == if ok then old(Model()).Opened(rules.naming, key) else old(Model())
    {
      var dest := rules.naming.FileName(key);
      if dest !in files || overwrite {
        files := files[dest := staged];
      }
      var chain := OpenWithKey(key);
      ok := chain.Some?;
    }

    method NextKeyOf(base: string) returns (key: string)
      requires rules.naming.Valid()
      ensures key == NextKey(Model().TakenNames(rules.naming), base) && rules.naming.FileName(key) !in files
    {
      var found := set name | name in files && KeyOfFile(name).Some? :: KeyOfFile(name).value;
      key := NextImportKey(Taken(rules.naming, registered + found, files.Keys), base);
    }

    method AppendVerifiedSuffix(key: string, suffix: seq<Record>)
      requires rules.naming.FileName(key) in files && files[rules.naming.FileName(key)].Readable?
      modifies `files
      ensures var dest := rules.naming.FileName(key);
              files == old(files)[dest := Readable(old(files)[dest].records + suffix)]
    {
      var dest := rules.naming.FileName(key);
      ghost var before := files;
      assert before[dest].records + suffix[..0] == before[dest].records;
      for k := 0 to |suffix|
        invariant dest in files && files == before[dest := Readable(before[dest].records + suffix[..k])]
      {
        files := files[dest := Readable(files[dest].records + [suffix[k]])];
        assert suffix[..k + 1] == suffix[..k] + [suffix[k]];
        assert before[dest].records + suffix[..k] + [suffix[k]] == before[dest].records + suffix[..k + 1];
      }
      assert suffix[..|suffix|] == suffix;
    }

    method ImportChainFromStaging(key: string, staged: ChainFile, overwrite: bool) returns (ok: bool)
      requires rules.naming.Valid()
      modifies this
      ensures Outcome(Model(), ok) == ImportInto(rules, old(Model()), key, staged, overwrite)
    {
      hide NextKey, Classify, Naming.FileName, Naming.Safe, Naming.Valid;
      var dest := rules.naming.FileName(key);
      if dest !in files {
        ok := CopyChainBundle(staged, key, false);
        return;
      }
      if staged.Unreadable? {
        if overwrite {
          var _ := CopyChainBundle(staged, key, true);
        }
        return true;
      }
      var local := OpenWithKey(key);
      if local.None? {
        var target := key;
        if !overwrite {
          target := NextKeyOf(key);
        }
        ok := CopyChainBundle(staged, target, overwrite);
        return;
      }
      match Classify(local.value, staged.records)
      case Identical =>
        return true;
      case LocalExtendsBackup =>
        return true;
      case BackupExtendsLocal(start) =>
        if rules.governed(local.value) && !rules.acceptable(staged.records, start) {
          var renamed := NextKeyOf(key);
          ok := CopyChainBundle(staged, renamed, false);
        } else {
          AppendVerifiedSuffix(key, staged.records[start..]);
          ok := true;
        }
      case Divergent =>
        var renamed := NextKeyOf(key);
        ok := CopyChainBundle(staged, renamed, false);
    }
  }

  // ----- Nothing is lost

  /** The chain stored as `key` in `s` has all of `records` at its front. */
  ghost predicate Keeps(rules: Rules, s: State, key: string, records: seq<Record>) {
    var name := rules.naming.FileName(key);
    name in s.files && s.files[name].Readable? && records <= s.files[name].records
  }

  /** `key` was free in `s`: neither in use nor the name of a file. */
  ghost predicate FreshKey(rules: Rules, s: State, key: string) {
    && key !in s.registered && rules.naming.FileName(key) !in s.files
    && forall name :: name in s.files ==> KeyOfFile(name) != Some(key)
  }

  lemma NextKeyIsFresh(rules: Rules, s: State, base: string)
    requires rules.naming.Valid()
    ensures FreshKey(rules, s, NextKey(s.TakenNames(rules.naming), base))
  {
  }

  lemma ExtensionKeepsBoth(rules: Rules, local: seq<Record>, backup: seq<Record>)
    requires rules.CollisionFree() && rules.WellLinked(local) && rules.WellLinked(backup)
    requires Classify(local, backup).BackupExtendsLocal?
    ensures local <= backup && local + backup[Classify(local, backup).suffixStart..] == backup
  {
    ClassifyIs(rules, local, backup);
  }

  /** After an import every other file is as it was; the local chain is still the front of what is
      stored as its key, unless overwriting with a backup that does not open was asked for; and a
      backup that opens is all in that chain or in one under a key that was free. */
  lemma ImportLosesNothing(rules: Rules, s: State, key: string, staged: ChainFile, overwrite: bool)
    requires rules.CollisionFree() && s.Valid(rules) && (staged.Readable? ==> rules.WellLinked(staged.records))
    ensures var after, dest := ImportInto(rules, s, key, staged, overwrite).state, rules.naming.FileName(key);
            && after.Valid(rules)
            && (forall name :: name in s.files && name != dest ==>
               name in after.files && after.files[name] == s.files[name])
            && (dest in s.files && s.files[dest].Readable? && !(overwrite && staged.Unreadable?) ==>
                  Keeps(rules, after, key, s.files[dest].records))
            && (staged.Readable? ==>
                  exists kept :: (kept == key || FreshKey(rules, s, kept)) && Keeps(rules, after, kept, staged.records))
  {
    hide NextKey, Classify, Naming.FileName, Naming.Safe, Naming.Valid, Rules.WellLinked, Rules.CollisionFree;
    var naming, dest, after := rules.naming, rules.naming.FileName(key),
        ImportInto(rules, s, key, staged, overwrite).state;
    if dest !in s.files || staged.Unreadable? {
      assert staged.Readable? ==> Keeps(rules, after, key, staged.records);
    } else if s.files[dest].Unreadable? {
      NextKeyIsFresh(rules, s, key);
      var kept := if overwrite then key else NextKey(s.TakenNames(naming), key);
      assert Keeps(rules, after, kept, staged.records);
    } else {
      var local, known := s.files[dest].records, s.Opened(naming, key);
      ClassifyIs(rules, local, staged.records);
      match Classify(local, staged.records)
      case Identical => assert Keeps(rules, after, key, staged.records);
      case LocalExtendsBackup => assert Keeps(rules, after, key, staged.records);
      case BackupExtendsLocal(start) =>
        ExtensionKeepsBoth(rules, local, staged.records);
        if rules.governed(local) && !rules.acceptable(staged.records, start) {
          KeptApart(rules, s, key, staged);
        } else {
          assert Keeps(rules, after, key, staged.records);
        }
      case Divergent => KeptApart(rules, s, key, staged);
    }
  }

  /** An import fails only for a backup that does not open and has nothing of its name to leave in place. It
      unregisters no chain; a backup that opens is registered under the key it is kept at, and the local
      chain of its name when that opens; one that does not open registers nothing, and only on request
      replaces what is there. */
  lemma ImportRegisters(rules: Rules, s: State, key: string, staged: ChainFile, overwrite: bool)
    requires rules.CollisionFree() && s.Valid(rules) && (staged.Readable? ==> rules.WellLinked(staged.records))
    ensures var done, dest := ImportInto(rules, s, key, staged, overwrite), rules.naming.FileName(key);
            && (done.ok <==> dest in s.files || staged.Readable?)
            && s.registered <= done.state.registered
            && (staged.Readable? ==>
                  exists kept :: (kept == key || FreshKey(rules, s, kept)) &&
                    Keeps(rules, done.state, kept, staged.records) &&
                      rules.naming.Safe(kept) in done.state.registered &&
                    done.state.registered <= s.registered + {rules.naming.Safe(key), rules.naming.Safe(kept)})
            && (staged.Readable? && dest in s.files && s.files[dest].Readable? ==>
                  rules.naming.Safe(key) in done.state.registered)
            && (staged.Unreadable? ==>
                  done.state == if dest in s.files && !overwrite then s else s.(files := s.files[dest := staged]))
  {
    hide NextKey, Classify, Naming.FileName, Naming.Safe, Naming.Valid, Rules.WellLinked, Rules.CollisionFree;
    var naming, dest, after := rules.naming, rules.naming.FileName(key),
        ImportInto(rules, s, key, staged, overwrite).state;
    if staged.Readable? {
      var kept := KeptAs(rules, s, key, staged.records, overwrite);
      assert Keeps(rules, after, kept, staged.records);
    }
  }

  /** The key under which a backup that opens is found after its import. */
  lemma KeptAs(rules: Rules, s: State, key: string, backup: seq<Record>, overwrite: bool) returns (kept: string)
    requires rules.CollisionFree() && s.Valid(rules) && rules.WellLinked(backup)
    ensures kept == key || FreshKey(rules, s, kept)
    ensures var after := ImportInto(rules, s, key, Readable(backup), overwrite).state;
            && Keeps(rules, after, kept, backup) && rules.naming.Safe(kept) in after.registered
            && after.registered <= s.registered + {rules.naming.Safe(key), rules.naming.Safe(kept)}
  {
    hide NextKey, Classify, Naming.FileName, Naming.Safe, Naming.Valid, Rules.WellLinked, Rules.CollisionFree;
    var dest, staged := rules.naming.FileName(key), Readable(backup);
    if dest !in s.files {
      kept := key;
    } else if s.files[dest].Unreadable? {
      NextKeyIsFresh(rules, s, key);
      kept := if overwrite then key else NextKey(s.TakenNames(rules.naming), key);
    } else {
      var local, known := s.files[dest].records, s.Opened(rules.naming, key);
      ClassifyIs(rules, local, backup);
      KeptApart(rules, s, key, staged);
      kept := NextKey(known.TakenNames(rules.naming), key);
      match Classify(local, backup)
      case Identical => kept := key;
      case LocalExtendsBackup => kept := key;
      case BackupExtendsLocal(start) =>
        ExtensionKeepsBoth(rules, local, backup);
        if !(rules.governed(local) && !rules.acceptable(backup, start)) {
          kept := key;
        }
      case Divergent =>
    }
  }

  /** A backup copied under the next free key is there whole. */
  lemma KeptApart(rules: Rules, s: State, key: string, staged: ChainFile)
    requires rules.naming.Valid() && staged.Readable?
    ensures var known := s.Opened(rules.naming, key);
            var kept := NextKey(known.TakenNames(rules.naming), key);
            FreshKey(rules, s, kept) && Keeps(rules, known.Copied(rules.naming, kept, staged), kept, staged.records)
  {
    NextKeyIsFresh(rules, s.Opened(rules.naming, key), key);
  }

  /** When the backup extends the local chain, and a governed chain accepts the rest, importing leaves
      exactly the backup's records, and the next look finds the two identical. */
  lemma ExtendedIsBackup(rules: Rules, s: State, key: string, backup: seq<Record>, overwrite: bool)
    requires rules.CollisionFree() && s.Valid(rules) && rules.WellLinked(backup)
    requires var dest := rules.naming.FileName(key);
             && dest in s.files && s.files[dest].Readable? && s.files[dest].records < backup
             && (rules.governed(s.files[dest].records) ==> rules.acceptable(backup, |s.files[dest].records|))
    ensures var dest, after := rules.naming.FileName(key), ImportInto(rules, s, key, Readable(backup), overwrite);
            && after == Outcome(s.Opened(rules.naming, key).(files := s.files[dest := Readable(backup)]), true)
            && Classify(after.state.files[dest].records, backup) == Identical
  {
    hide NextKey, Classify, Naming.FileName, Naming.Safe, Naming.Valid, Rules.WellLinked, Rules.CollisionFree;
    var local := s.files[rules.naming.FileName(key)].records;
    ClassifyIs(rules, local, backup);
    ClassifyIs(rules, backup, backup);
    ExtensionKeepsBoth(rules, local, backup);
  }

  /** The backup is kept apart from a local chain that opens: the two diverge, or the local chain is
      governed and does not accept the rest of the backup. */
  ghost predicate KeptApartFrom(rules: Rules, local: seq<Record>, backup: seq<Record>) {
    || !(local <= backup || backup <= local)
    || (local < backup && rules.governed(local) && !rules.acceptable(backup, |local|))
  }

  /** Importing the same backup again changes no file exactly when it is not kept apart from a local chain
      that opens, nor has one that does not open beside it; otherwise every import makes another copy. */
  lemma SecondImport(rules: Rules, s: State, key: string, backup: seq<Record>)
    requires rules.CollisionFree() && s.Valid(rules) && rules.WellLinked(backup)
    ensures var dest, first := rules.naming.FileName(key), ImportInto(rules, s, key, Readable(backup), false).state;
            var second := ImportInto(rules, first, key, Readable(backup), false).state;
            var apart := dest in s.files &&
                (s.files[dest].Unreadable? || KeptApartFrom(rules, s.files[dest].records, backup));
            if apart then
              exists a, b ::
                && FreshKey(rules, s, a) && FreshKey(rules, first, b)
                && first.files == s.files[rules.naming.FileName(a) := Readable(backup)]
                && second.files == first.files[rules.naming.FileName(b) := Readable(backup)]
            else second.files == first.files
  {
    hide NextKey, Naming.FileName, Naming.Safe, Naming.Valid, Rules.WellLinked, Rules.CollisionFree, Classify;
    var dest := rules.naming.FileName(key);
    var first := ImportInto(rules, s, key, Readable(backup), false).state;
    ImportLosesNothing(rules, s, key, Readable(backup), false);
    ClassifyIs(rules, backup, backup);
    if dest in s.files && s.files[dest].Readable? {
      ClassifyIs(rules, s.files[dest].records, backup);
    }
    if dest in s.files && (s.files[dest].Unreadable? || KeptApartFrom(rules, s.files[dest].records, backup)) {
      var a := ApartOnce(rules, s, key, backup);
      var b := ApartOnce(rules, first, key, backup);
    } else if dest in s.files && s.files[dest].records < backup {
      ExtendedIsBackup(rules, s, key, backup, false);
    }
  }

  /** One import of a backup that is kept apart adds one file under a free key, and leaves it to be kept apart again. */
  lemma ApartOnce(rules: Rules, s: State, key: string, backup: seq<Record>) returns (free: string)
    requires rules.CollisionFree() && s.Valid(rules) && rules.WellLinked(backup) &&
             rules.naming.FileName(key) in s.files
    requires var local := s.files[rules.naming.FileName(key)];
             local.Unreadable? || KeptApartFrom(rules, local.records, backup)
    ensures FreshKey(rules, s, free)
    ensures ImportInto(rules, s, key, Readable(backup), false).state.files ==
            s.files[rules.naming.FileName(free) := Readable(backup)]
  {
    hide NextKey, Naming.FileName, Naming.Safe, Naming.Valid, Rules.WellLinked, Rules.CollisionFree, Classify;
    var local := s.files[rules.naming.FileName(key)];
    var known := if local.Readable? then s.Opened(rules.naming, key) else s;
    free := NextKey(known.TakenNames(rules.naming), key);
    NextKeyIsFresh(rules, known, key);
    if local.Readable? {
      ClassifyIs(rules, local.records, backup);
    }
  }
}
