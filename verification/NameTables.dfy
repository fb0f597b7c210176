/**
  The name part of db/metadump.c: the table of names already used, the table that keeps directory
  entries and parent pointers consistent, and the two routines that obfuscate a name through them.
*/
module NameTables {
  import opened Arith
  import opened NameHash
  import opened Alternates
  import opened FoldedHash
  import opened Obfuscate

  /** struct name_ent */
  datatype NameEnt = NameEnt(hash: bv32, name: Name)

  /** What remaptable_find compares. */
  datatype Key = Key(dir: nat, hash: bv32, name: Name)

  /** struct remap_ent: the key and the obfuscated name. */
  datatype RemapEnt = RemapEnt(key: Key, after: Name)

  /** Mount features and the root inode. */
  datatype Config = Config(hasParent: bool, asciiCi: bool, rootIno: nat)

  /** The tables and the inode of "lost+found" (0 until seen), without their representation. */
  datatype Tables = Tables(recorded: seq<NameEnt>, remap: map<Key, Name>, orphanage: nat)

  // ---------------------------------------------------------------------------
  // lost+found
  // ---------------------------------------------------------------------------

  /** "lost+found" */
  const ORPHANAGE: Name := [0x6c, 0x6f, 0x73, 0x74, 0x2b, 0x66, 0x6f, 0x75, 0x6e, 0x64]

  /** "0123456789" */
  const DIGITS: Name := [0x30, 0x31, 0x32, 0x33, 0x34, 0x35, 0x36, 0x37, 0x38, 0x39]

  /** The name that an orphan gets: "%llu" of its inode number. */
  function OrphanName(ino: nat): Name { Decimal(ino, DIGITS) }

  /** The inode of "lost+found" after looking at an entry of directory `dir`. */
  function SeeOrphanage(cfg: Config, orphanage: nat, dir: nat, ino: nat, name: Name): nat {
    if orphanage == 0 && dir == cfg.rootIno && name == ORPHANAGE then ino else orphanage
  }

  /** in_lost_found, with the orphanage already updated: the name must stay as it is. */
  predicate Exempt(orphanage: nat, dir: nat, ino: nat, name: Name) {
    ino == orphanage || (dir == orphanage && name == OrphanName(ino))
  }

  // ---------------------------------------------------------------------------
  // The tables' meaning
  // ---------------------------------------------------------------------------

  /** It has the hash asked for, is valid if it can be, and without ascii-ci is no ordinary name. */
  lemma {:induction false} ObfuscatedFacts(name: Name, hash: bv32, ci: bool, obf: Name)
    requires Obfuscated(name, hash, ci, obf) && hash == Hash(name, ci)
    ensures Hash(obf, ci) == hash && (ValidName(name) ==> ValidName(obf))
    ensures !ci && |name| >= 5 ==> ValidName(obf) && 0 < obf[|name| - 5] < 0x20
  {
    if |name| >= 5 && Scrambled(obf, hash, ci) { ScrambledFacts(obf, hash, ci); }
  }

  /** Alternate k of a name is a name, and is taken. */
  ghost predicate Taken(recorded: seq<NameEnt>, hash: bv32, name: Name, k: nat) {
    FindAlternate(name, k).0 == 1 ==> NameEnt(hash, FindAlternate(name, k).1) in recorded
  }

  /** `found` is the first alternate of `name` that nobody uses. */
  ghost predicate FirstFree(recorded: seq<NameEnt>, hash: bv32, name: Name, found: Name, k: nat) {
    && FindAlternate(name, k) == (1, found)
    && NameEnt(hash, found) !in recorded
    && TakenBelow(recorded, hash, name, k)
  }

  ghost predicate TakenBelow(recorded: seq<NameEnt>, hash: bv32, name: Name, n: nat) {
    forall i :: 0 <= i < n ==> Taken(recorded, hash, name, i)
  }

  ghost predicate AllTaken(recorded: seq<NameEnt>, hash: bv32, name: Name) {
    forall k :: 0 <= k ==> Taken(recorded, hash, name, k)
  }

  // ---------------------------------------------------------------------------
  // How long the search for an alternate can last
  // ---------------------------------------------------------------------------

  /** The number of sequence numbers worth trying for names of this length. */
  function Alternatives(len: nat): (n: nat)
    ensures n >= 1
  {
    if len < 2 then 1 else Pow2(LastRow(len) + 1)
  }

  lemma {:induction false} FindHalf(name: Name, bits: nat, half: nat, j: nat)
    requires |name| >= 2 && bits == 2 * half > 0
    ensures FindFrom(name, bits, j) == FindFrom(name, half, j + 1)
  {
    assert bits % 2 == 0 && bits / 2 == half;
  }

  lemma {:induction false} FindBeyond(name: Name, j: nat)
    requires |name| >= 2 && j > LastRow(|name|)
    ensures FindFrom(name, 1, j).0 == -1
  {
    assert FlipBit(name, j) == (-1, name);
  }

  lemma {:induction false} FindPowerFails(name: Name, n: nat, j: nat)
    requires |name| >= 2 && n + j == LastRow(|name|) + 1
    ensures FindFrom(name, Pow2(n), j).0 == -1
    decreases n
  {
    if n > 0 {
      FindHalf(name, Pow2(n), Pow2(n - 1), j);
      FindPowerFails(name, n - 1, j + 1);
    } else {
      FindBeyond(name, j);
    }
  }

  lemma {:induction false} FindInRangeTries(name: Name, bits: nat, j: nat)
    requires |name| >= 2 && j <= LastRow(|name|) + 1 && bits < Pow2(LastRow(|name|) + 1 - j)
    ensures FindFrom(name, bits, j).0 != -1
    decreases bits
  {
    if bits != 0 {
      if bits % 2 == 0 {
        FindInRangeTries(name, bits / 2, j + 1);
      } else {
        FlipKeeps(name, j);
        FlipKeepsLength(name, j);
        if FlipBit(name, j).0 == 1 { FindInRangeTries(FlipBit(name, j).1, bits / 2, j + 1); }
      }
    }
  }

  /** The search ends at the first power of two beyond the rows, and no later number ever succeeds. */
  lemma {:induction false} SearchBound(name: Name)
    ensures FindAlternate(name, Alternatives(|name|)).0 == -1
    ensures forall k :: 0 <= k ==> (k >= Alternatives(|name|) ==> FindAlternate(name, k).0 != 1)
    ensures forall k :: 0 <= k ==> (k < Alternatives(|name|) ==> FindAlternate(name, k).0 != -1)
  {
    var n := Alternatives(|name|);
    if |name| >= 2 {
      FindPowerFails(name, LastRow(|name|) + 1, 0);
      forall k | 0 <= k
        ensures k >= n ==> FindAlternate(name, k).0 != 1
        ensures k < n ==> FindAlternate(name, k).0 != -1
      {
        if k < n { FindInRangeTries(name, k, 0); }
        if FindFrom(name, k, 0).0 == 1 { FoundInRange(name, k, 0); }
      }
    }
  }

  lemma {:induction false} SearchAt(name: Name, k: nat)
    ensures k == Alternatives(|name|) ==> FindAlternate(name, k).0 == -1
    ensures k < Alternatives(|name|) ==> FindAlternate(name, k).0 != -1
  {
    SearchBound(name);
  }

  /** Nothing beyond the bound is a name, so having every earlier one taken is having all taken. */
  lemma {:induction false} BelowIsAll(recorded: seq<NameEnt>, hash: bv32, name: Name, n: nat)
    requires n >= Alternatives(|name|) && TakenBelow(recorded, hash, name, n)
    ensures AllTaken(recorded, hash, name)
  {
    SearchBound(name);
    forall k | 0 <= k
      ensures Taken(recorded, hash, name, k)
    {
      if k >= n { assert FindAlternate(name, k).0 != 1; }
    }
  }

  lemma {:induction false} TakenMore(recorded: seq<NameEnt>, hash: bv32, name: Name, n: nat)
    requires TakenBelow(recorded, hash, name, n) && Taken(recorded, hash, name, n)
    ensures TakenBelow(recorded, hash, name, n + 1)
  {
  }

  lemma {:induction false} FreeIsGood(recorded: seq<NameEnt>, hash: bv32, name: Name, found: Name, k: nat)
    requires FirstFree(recorded, hash, name, found, k)
    ensures |found| == |name| && Hash(found, false) == Hash(name, false) && NameEnt(hash, found) !in recorded
    ensures ValidName(name) ==> ValidName(found)
  {
    AlternateKeeps(name, k);
  }

  // ---------------------------------------------------------------------------
  // The transition system
  // ---------------------------------------------------------------------------

  datatype Event =
    | Dirent(dir: nat, ino: nat, name: Name)
    | Attr(name: Name)
    | Pptr(parent: nat, child: nat, name: Name)
    | NextInode

  /** dirattr_hashname */
  function NameHashOf(cfg: Config, isDirent: bool, name: Name): bv32 {
    Hash(name, isDirent && cfg.asciiCi)
  }

  function DirentKey(cfg: Config, dir: nat, name: Name): Key {
    Key(dir, NameHashOf(cfg, true, name), name)
  }

  /** The name obfuscated to `obf` ends as alternate k of it and is recorded, or as a duplicate. */
  ghost predicate RenamedVia(t: Tables, hash: bv32, ci: bool, name: Name, obf: Name, k: nat,
                             result: Name, t': Tables)
  {
    && Obfuscated(name, hash, ci, obf)
    && ((result == obf && AllTaken(t.recorded, hash, obf) && t' == t)
        || (FirstFree(t.recorded, hash, obf, result, k)
            && t' == t.(recorded := t.recorded + [NameEnt(hash, result)])))
  }

  /** Obfuscate, avoid the names already recorded, and record the outcome. */
  ghost predicate Renamed(t: Tables, hash: bv32, ci: bool, name: Name, result: Name, t': Tables) {
    exists obf, k :: RenamedVia(t, hash, ci, name, obf, k, result, t')
  }

  /** What generate_obfuscated_name does once the name is to be changed: rename, and file a new name. */
  ghost predicate RenamedEntry(cfg: Config, t: Tables, key: Key, result: Name, t': Tables, t1: Tables) {
    && Renamed(t, key.hash, cfg.asciiCi, key.name, result, t1)
    && t' == if cfg.hasParent && t1.recorded != t.recorded then t1.(remap := t1.remap[key := result]) else t1
  }

  /** One call of generate_obfuscated_name, maybe_obfuscate_pptr or nametable_clear. */
  ghost predicate Next(cfg: Config, t: Tables, ev: Event, result: Name, t': Tables) {
    match ev
    case NextInode => result == [] && t' == t.(recorded := [])
    case Attr(name) => Renamed(t, NameHashOf(cfg, false, name), false, name, result, t')
    case Dirent(dir, ino, name) =>
      var t0 := t.(orphanage := SeeOrphanage(cfg, t.orphanage, dir, ino, name));
      var key := DirentKey(cfg, dir, name);
      if Exempt(t0.orphanage, dir, ino, name) then result == name && t' == t0
      else if cfg.hasParent && key in t.remap then result == t.remap[key] && t' == t0
      else exists t1 :: RenamedEntry(cfg, t0, key, result, t', t1)
    case Pptr(parent, child, name) =>
      var t0 := t.(orphanage := SeeOrphanage(cfg, t.orphanage, parent, child, name));
      var key := DirentKey(cfg, parent, name);
      if Exempt(t0.orphanage, parent, child, name) then result == name && t' == t0
      else if key in t.remap then result == t.remap[key] && t' == t0
      else Obfuscated(name, key.hash, cfg.asciiCi, result) && t' == t0.(remap := t0.remap[key := result])
  }

  /** A dump: any sequence of events from empty tables, with the names they produced. */
  ghost predicate Dump(cfg: Config, ts: seq<Tables>, evs: seq<Event>, rs: seq<Name>) {
    && |ts| == |evs| + 1 && |rs| == |evs|
    && ts[0] == Tables([], map[], 0)
    && forall k :: 0 <= k < |evs| ==> Next(cfg, ts[k], evs[k], rs[k], ts[k + 1])
  }

  lemma {:induction false} ShortDump(cfg: Config, ts: seq<Tables>, evs: seq<Event>, rs: seq<Name>)
    requires |ts| == 4 && |evs| == 3 && |rs| == 3 && ts[0] == Tables([], map[], 0)
    requires Next(cfg, ts[0], evs[0], rs[0], ts[1])
    requires Next(cfg, ts[1], evs[1], rs[1], ts[2])
    requires Next(cfg, ts[2], evs[2], rs[2], ts[3])
    ensures Dump(cfg, ts, evs, rs)
  {
    forall k | 0 <= k < |evs|
      ensures Next(cfg, ts[k], evs[k], rs[k], ts[k + 1])
    {
      if k == 1 {
        assert Next(cfg, ts[1], evs[1], rs[1], ts[2]);
      } else if k == 2 {
        assert Next(cfg, ts[2], evs[2], rs[2], ts[3]);
      }
    }
  }

  // ---------------------------------------------------------------------------
  // Uniqueness
  // ---------------------------------------------------------------------------

  ghost predicate Distinct(recorded: seq<NameEnt>) {
    forall i, j :: 0 <= i < j < |recorded| ==> recorded[i] != recorded[j]
  }

  ghost predicate NamesDistinct(recorded: seq<NameEnt>) {
    forall i, j :: 0 <= i < j < |recorded| ==> recorded[i].name != recorded[j].name
  }

  /** Every entry is filed under the hash of its own name. */
  ghost predicate OwnKeys(recorded: seq<NameEnt>, ci: bool) {
    forall i :: 0 <= i < |recorded| ==> OwnKey(recorded[i], ci)
  }

  predicate OwnKey(ent: NameEnt, ci: bool) { ent.hash == Hash(ent.name, ci) }

  lemma {:induction false} OwnKeysDistinct(recorded: seq<NameEnt>, ci: bool)
    requires Distinct(recorded) && OwnKeys(recorded, ci)
    ensures NamesDistinct(recorded)
  {
    forall i, j | 0 <= i < j < |recorded|
      ensures recorded[i].name != recorded[j].name
    {
      assert OwnKey(recorded[i], ci) && OwnKey(recorded[j], ci);
    }
  }

  lemma {:induction false} RenamedKeepsUnique(t: Tables, hash: bv32, ci: bool, name: Name, result: Name, t': Tables)
    requires Renamed(t, hash, ci, name, result, t') && Distinct(t.recorded)
    ensures Distinct(t'.recorded) && |result| == |name|
    ensures OwnKeys(t.recorded, false) && !ci && hash == Hash(name, false) ==>
              OwnKeys(t'.recorded, false) && Hash(result, false) == hash
  {
    var obf, k :| RenamedVia(t, hash, ci, name, obf, k, result, t');
    AlternateKeeps(obf, k);
    if hash == Hash(name, ci) { ObfuscatedFacts(name, hash, ci, obf); }
  }

  lemma {:induction false} NextKeepsUnique(cfg: Config, t: Tables, ev: Event, result: Name, t': Tables)
    requires Next(cfg, t, ev, result, t') && Distinct(t.recorded)
    ensures Distinct(t'.recorded)
    ensures !cfg.asciiCi && OwnKeys(t.recorded, false) ==> OwnKeys(t'.recorded, false)
  {
    match ev
    case Attr(name) => RenamedKeepsUnique(t, NameHashOf(cfg, false, name), false, name, result, t');
    case Dirent(dir, ino, name) =>
      var t0 := t.(orphanage := SeeOrphanage(cfg, t.orphanage, dir, ino, name));
      var key := DirentKey(cfg, dir, name);
      if !Exempt(t0.orphanage, dir, ino, name) && !(cfg.hasParent && key in t.remap) {
        var t1 :| RenamedEntry(cfg, t0, key, result, t', t1);
        RenamedKeepsUnique(t0, key.hash, cfg.asciiCi, name, result, t1);
      }
    case _ =>
  }

  /**
    All entries recorded between two clears of the name table are pairwise different; so are the names
    as long as each is filed under its own hash, which without ascii-ci is always.
  */
  lemma {:induction false} RecordedNamesDistinct(cfg: Config, ts: seq<Tables>, evs: seq<Event>, rs: seq<Name>, k: nat)
    requires Dump(cfg, ts, evs, rs) && k < |ts|
    ensures Distinct(ts[k].recorded)
    ensures OwnKeys(ts[k].recorded, cfg.asciiCi) ==> NamesDistinct(ts[k].recorded)
    ensures !cfg.asciiCi ==> OwnKeys(ts[k].recorded, false) && NamesDistinct(ts[k].recorded)
  {
    EntriesDistinct(cfg, ts, evs, rs, k);
    if OwnKeys(ts[k].recorded, cfg.asciiCi) { OwnKeysDistinct(ts[k].recorded, cfg.asciiCi); }
  }

  lemma {:induction false} EntriesDistinct(cfg: Config, ts: seq<Tables>, evs: seq<Event>, rs: seq<Name>, k: nat)
    requires Dump(cfg, ts, evs, rs) && k < |ts|
    ensures Distinct(ts[k].recorded)
    ensures !cfg.asciiCi ==> OwnKeys(ts[k].recorded, false)
  {
    if k > 0 {
      EntriesDistinct(cfg, ts, evs, rs, k - 1);
      assert Next(cfg, ts[k - 1], evs[k - 1], rs[k - 1], ts[k]);
      NextKeepsUnique(cfg, ts[k - 1], evs[k - 1], rs[k - 1], ts[k]);
    }
  }

  /**
    With ascii-ci the name recorded for a directory entry is filed under its own folded hash exactly
    when the alternate chosen keeps the folds.
  */
  lemma {:induction false} FiledUnderOwnFold(t: Tables, name: Name, obf: Name, k: nat, result: Name, t': Tables)
    requires RenamedVia(t, Hash(name, true), true, name, obf, k, result, t') && t' != t
    ensures t'.recorded == t.recorded + [NameEnt(Hash(name, true), result)]
    ensures Hash(result, true) == Hash(name, true) <==> KeepsFolds(obf, k)
    ensures OwnKeys(t.recorded, true) ==> (OwnKeys(t'.recorded, true) <==> KeepsFolds(obf, k))
  {
    var n := |t.recorded|;
    FoldedHashKept(obf, k);
    ObfuscatedFacts(name, Hash(name, true), true, obf);
    assert t'.recorded[n] == NameEnt(Hash(name, true), result);
    assert OwnKey(t'.recorded[n], true) <==> Hash(result, true) == Hash(name, true);
    assert forall i :: 0 <= i < n ==> t'.recorded[i] == t.recorded[i];
  }

  /** An entry of directory 200 whose name is too short to be obfuscated. */
  lemma {:induction false} ShortNameStep(cfg: Config, t: Tables, ino: nat, name: Name, k: nat, found: Name, t': Tables)
    requires cfg == Config(false, true, 128) && t.orphanage == 0 && ino != 0 && |name| < 5
    requires FirstFree(t.recorded, Hash(name, true), name, found, k)
    requires t' == t.(recorded := t.recorded + [NameEnt(Hash(name, true), found)])
    ensures Next(cfg, t, Dirent(200, ino, name), found, t')
  {
    assert RenamedVia(t, Hash(name, true), true, name, name, k, found, t');
    assert RenamedEntry(cfg, t, DirentKey(cfg, 200, name), found, t', t');
    assert t.(orphanage := 0) == t;
  }

  /** An entry whose short name is not recorded yet. */
  lemma {:induction false} NewNameStep(cfg: Config, t: Tables, ino: nat, name: Name, t': Tables)
    requires cfg == Config(false, true, 128) && t.orphanage == 0 && ino != 0 && |name| < 5
    requires NameEnt(Hash(name, true), name) !in t.recorded
    requires t' == t.(recorded := t.recorded + [NameEnt(Hash(name, true), name)])
    ensures Next(cfg, t, Dirent(200, ino, name), name, t')
  {
    ShortNameStep(cfg, t, ino, name, 0, name, t');
  }

  /** An entry whose short name is all that is recorded. */
  lemma {:induction false} AgainStep(cfg: Config, t: Tables, ino: nat, name: Name, found: Name, t': Tables)
    requires cfg == Config(false, true, 128) && t.orphanage == 0 && ino != 0 && |name| < 5
    requires t.recorded == [NameEnt(Hash(name, true), name)] && FindAlternate(name, 1) == (1, found) && found != name
    requires t' == t.(recorded := t.recorded + [NameEnt(Hash(name, true), found)])
    ensures Next(cfg, t, Dirent(200, ino, name), found, t')
  {
    assert NameEnt(Hash(name, true), name) in t.recorded;
    assert Taken(t.recorded, Hash(name, true), name, 0);
    ShortNameStep(cfg, t, ino, name, 1, found, t');
  }

  lemma {:induction false} CollidingSteps(cfg: Config, a: Name, b: Name, ha: bv32, hb: bv32, t1: Tables, t2: Tables)
    requires cfg == Config(false, true, 128) && |a| < 5 && |b| < 5 && a != b && FindAlternate(a, 1) == (1, b)
    requires ha == Hash(a, true) && hb == Hash(b, true) && ha != hb
    requires t1 == Tables([NameEnt(ha, a)], map[], 0) && t2 == t1.(recorded := [NameEnt(ha, a), NameEnt(ha, b)])
    ensures Next(cfg, Tables([], map[], 0), Dirent(200, 300, a), a, t1)
    ensures Next(cfg, t1, Dirent(200, 301, a), b, t2)
    ensures Next(cfg, t2, Dirent(200, 302, b), b, t2.(recorded := t2.recorded + [NameEnt(hb, b)]))
  {
    NewNameStep(cfg, Tables([], map[], 0), 300, a, t1);
    AgainStep(cfg, t1, 301, a, b, t2);
    NewNameStep(cfg, t2, 302, b, t2.(recorded := t2.recorded + [NameEnt(hb, b)]));
  }

  lemma {:induction false} CollidingDump(cfg: Config, a: Name, b: Name, ha: bv32, hb: bv32)
    returns (ts: seq<Tables>, evs: seq<Event>, rs: seq<Name>)
    requires cfg == Config(false, true, 128) && |a| < 5 && |b| < 5 && a != b && FindAlternate(a, 1) == (1, b)
    requires ha == Hash(a, true) && hb == Hash(b, true) && ha != hb
    ensures evs == [Dirent(200, 300, a), Dirent(200, 301, a), Dirent(200, 302, b)]
    ensures Dump(cfg, ts, evs, rs)
    ensures |ts[3].recorded| == 3 && ts[3].recorded[1].name == ts[3].recorded[2].name == b
  {
    var t1 := Tables([NameEnt(ha, a)], map[], 0);
    var t2 := t1.(recorded := [NameEnt(ha, a), NameEnt(ha, b)]);
    CollidingSteps(cfg, a, b, ha, hb, t1, t2);
    ts := [Tables([], map[], 0), t1, t2, t2.(recorded := t2.recorded + [NameEnt(hb, b)])];
    evs, rs := [Dirent(200, 300, a), Dirent(200, 301, a), Dirent(200, 302, b)], [a, b, b];
    ShortDump(cfg, ts, evs, rs);
  }

  /**
    Otherwise two recorded names can be the same. A damaged directory holds one name twice: the second
    time it becomes an alternate, which is filed under the first name's hash. When that alternate is
    itself the name of an entry, it is not found under its own hash and is recorded again.
  */
  lemma {:induction false} FoldedNamesCollide(a: Name, b: Name)
    returns (ts: seq<Tables>, evs: seq<Event>, rs: seq<Name>)
    requires a == [0x41, 0x62] && b == [0x40, 0xe2]
    ensures evs == [Dirent(200, 300, a), Dirent(200, 301, a), Dirent(200, 302, b)]
    ensures Dump(Config(false, true, 128), ts, evs, rs)
    ensures |ts[3].recorded| == 3 && ts[3].recorded[1].name == ts[3].recorded[2].name == b
  {
    AlternateChangesFoldedHash();
    ts, evs, rs := CollidingDump(Config(false, true, 128), a, b, Hash(a, true), Hash(b, true));
  }

  // ---------------------------------------------------------------------------
  // Directory entries and parent pointers agree
  // ---------------------------------------------------------------------------

  predicate HasKey(ev: Event) { ev.Dirent? || ev.Pptr? }

  function DirOf(ev: Event): nat
    requires HasKey(ev)
  {
    if ev.Dirent? then ev.dir else ev.parent
  }

  function InoOf(ev: Event): nat
    requires HasKey(ev)
  {
    if ev.Dirent? then ev.ino else ev.child
  }

  function KeyOf(cfg: Config, ev: Event): Key
    requires HasKey(ev)
  {
    DirentKey(cfg, DirOf(ev), ev.name)
  }

  /** The entry is left alone because of lost+found. */
  predicate Skipped(cfg: Config, t: Tables, ev: Event)
    requires HasKey(ev)
  {
    Exempt(SeeOrphanage(cfg, t.orphanage, DirOf(ev), InoOf(ev), ev.name), DirOf(ev), InoOf(ev), ev.name)
  }

  /** One event: remappings are never changed or dropped, a known key yields its name, and a new one is filed. */
  lemma {:induction false} NextKeepsRemap(cfg: Config, t: Tables, ev: Event, result: Name, t': Tables)
    requires cfg.hasParent && Next(cfg, t, ev, result, t')
    ensures forall key :: key in t.remap ==> key in t'.remap && t'.remap[key] == t.remap[key]
    ensures HasKey(ev) && Skipped(cfg, t, ev) ==> result == ev.name
    ensures HasKey(ev) && !Skipped(cfg, t, ev) && KeyOf(cfg, ev) in t'.remap ==> t'.remap[KeyOf(cfg, ev)] == result
    ensures ev.Pptr? && !Skipped(cfg, t, ev) ==> KeyOf(cfg, ev) in t'.remap
  {
    if ev.Dirent? {
      var t0 := t.(orphanage := SeeOrphanage(cfg, t.orphanage, ev.dir, ev.ino, ev.name));
      var key := DirentKey(cfg, ev.dir, ev.name);
      if !Exempt(t0.orphanage, ev.dir, ev.ino, ev.name) && key !in t.remap {
        var t1 :| RenamedEntry(cfg, t0, key, result, t', t1);
        assert t1.remap == t0.remap;
      }
    }
  }

  lemma {:induction false} RemapPersists(cfg: Config, ts: seq<Tables>, evs: seq<Event>, rs: seq<Name>,
                                         i: nat, j: nat, key: Key)
    requires cfg.hasParent && Dump(cfg, ts, evs, rs) && i <= j < |ts| && key in ts[i].remap
    ensures key in ts[j].remap && ts[j].remap[key] == ts[i].remap[key]
    decreases j
  {
    if i < j {
      RemapPersists(cfg, ts, evs, rs, i, j - 1, key);
      assert Next(cfg, ts[j - 1], evs[j - 1], rs[j - 1], ts[j]);
      NextKeepsRemap(cfg, ts[j - 1], evs[j - 1], rs[j - 1], ts[j]);
    }
  }

  /**
    Once a key is in the table, every later directory entry or parent pointer with that key gets the
    name filed for it, unless lost+found exempts it; then it keeps the name it has.
  */
  lemma {:induction false} KnownKeyDecides(cfg: Config, ts: seq<Tables>, evs: seq<Event>, rs: seq<Name>, i: nat, j: nat)
    requires cfg.hasParent && Dump(cfg, ts, evs, rs) && i <= j < |evs|
    requires HasKey(evs[j]) && KeyOf(cfg, evs[j]) in ts[i].remap
    ensures rs[j] == if Skipped(cfg, ts[j], evs[j]) then evs[j].name else ts[i].remap[KeyOf(cfg, evs[j])]
  {
    RemapPersists(cfg, ts, evs, rs, i, j + 1, KeyOf(cfg, evs[j]));
    assert Next(cfg, ts[j], evs[j], rs[j], ts[j + 1]);
    NextKeepsRemap(cfg, ts[j], evs[j], rs[j], ts[j + 1]);
  }

  /** A directory entry that ends with a name already recorded is not filed in the remap table. */
  predicate Unfiled(cfg: Config, t: Tables, ev: Event, result: Name)
    requires HasKey(ev)
  {
    ev.Dirent? && KeyOf(cfg, ev) !in t.remap && NameEnt(KeyOf(cfg, ev).hash, result) in t.recorded
  }

  lemma {:induction false} RenamedFiles(t: Tables, hash: bv32, ci: bool, name: Name, result: Name, t': Tables)
    requires Renamed(t, hash, ci, name, result, t')
    ensures t'.recorded != t.recorded <==> NameEnt(hash, result) !in t.recorded
    ensures t'.recorded == t.recorded ==> AllTaken(t.recorded, hash, result)
  {
    var obf, k :| RenamedVia(t, hash, ci, name, obf, k, result, t');
    if result == obf && AllTaken(t.recorded, hash, obf) && t' == t { assert Taken(t.recorded, hash, obf, 0); }
  }

  /**
    An entry or parent pointer that is not exempt is in the remap table afterwards, unless it is an
    entry for which every alternate of its obfuscated name was taken.
  */
  lemma {:induction false} FiledUnlessTaken(cfg: Config, t: Tables, ev: Event, result: Name, t': Tables)
    requires cfg.hasParent && Next(cfg, t, ev, result, t') && HasKey(ev) && !Skipped(cfg, t, ev)
    ensures KeyOf(cfg, ev) in t'.remap <==> !Unfiled(cfg, t, ev, result)
    ensures Unfiled(cfg, t, ev, result) ==> AllTaken(t.recorded, KeyOf(cfg, ev).hash, result)
    ensures Unfiled(cfg, t, ev, result) ==> t'.recorded == t.recorded && t'.remap == t.remap
  {
    var key := KeyOf(cfg, ev);
    if ev.Dirent? && key !in t.remap {
      var t0 := t.(orphanage := SeeOrphanage(cfg, t.orphanage, ev.dir, ev.ino, ev.name));
      var t1 :| RenamedEntry(cfg, t0, key, result, t', t1);
      RenamedFiles(t0, key.hash, cfg.asciiCi, ev.name, result, t1);
    }
  }

  /** After an entry that was not filed, its parent pointer can get any obfuscation of the name. */
  lemma {:induction false} UnfiledIsFree(cfg: Config, t: Tables, dir: nat, ino: nat, name: Name, result: Name,
                                         t': Tables, other: Name)
    requires cfg.hasParent && Next(cfg, t, Dirent(dir, ino, name), result, t')
    requires !Skipped(cfg, t, Dirent(dir, ino, name)) && Unfiled(cfg, t, Dirent(dir, ino, name), result)
    requires Obfuscated(name, NameHashOf(cfg, true, name), cfg.asciiCi, other)
    ensures !Skipped(cfg, t', Pptr(dir, ino, name))
    ensures Next(cfg, t', Pptr(dir, ino, name), other, t'.(remap := t'.remap[DirentKey(cfg, dir, name) := other]))
  {
    FiledUnlessTaken(cfg, t, Dirent(dir, ino, name), result, t');
    NextOrphanage(cfg, t, Dirent(dir, ino, name), result, t');
    var orphanage := SeeOrphanage(cfg, t'.orphanage, dir, ino, name);
    assert orphanage == t'.orphanage && t'.(orphanage := orphanage) == t';
  }

  /**
    A directory entry and a parent pointer with one key, in either order, the earlier of which was
    filed, end with the same name if and only if the later is not exempt, or the earlier kept its name
    anyway.
  */
  lemma {:induction false} SameKeySameName(cfg: Config, ts: seq<Tables>, evs: seq<Event>, rs: seq<Name>, i: nat, j: nat)
    requires cfg.hasParent && Dump(cfg, ts, evs, rs) && i < j < |evs|
    requires HasKey(evs[i]) && HasKey(evs[j]) && KeyOf(cfg, evs[i]) == KeyOf(cfg, evs[j])
    requires !Skipped(cfg, ts[i], evs[i]) && !Unfiled(cfg, ts[i], evs[i], rs[i])
    ensures rs[i] == rs[j] <==> !Skipped(cfg, ts[j], evs[j]) || rs[i] == evs[i].name
  {
    assert Next(cfg, ts[i], evs[i], rs[i], ts[i + 1]);
    NextKeepsRemap(cfg, ts[i], evs[i], rs[i], ts[i + 1]);
    FiledUnlessTaken(cfg, ts[i], evs[i], rs[i], ts[i + 1]);
    KnownKeyDecides(cfg, ts, evs, rs, i + 1, j);
  }

  // ---------------------------------------------------------------------------
  // What is recorded since the last clear
  // ---------------------------------------------------------------------------

  /** The event gives a name that is new to the dump: an attribute, or an entry neither exempt nor remapped. */
  predicate Renames(cfg: Config, t: Tables, ev: Event) {
    ev.Attr? || (ev.Dirent? && !Skipped(cfg, t, ev) && !(cfg.hasParent && KeyOf(cfg, ev) in t.remap))
  }

  /** Under which hash the name is recorded: that of the original name, folded for entries on ascii-ci. */
  function EntOf(cfg: Config, ev: Event, result: Name): NameEnt
    requires ev.Attr? || ev.Dirent?
  {
    NameEnt(Hash(ev.name, ev.Dirent? && cfg.asciiCi), result)
  }

  lemma {:induction false} RenamedRecords(t: Tables, hash: bv32, ci: bool, name: Name, result: Name, t': Tables)
    requires Renamed(t, hash, ci, name, result, t')
    ensures forall ent :: ent in t'.recorded <==> ent in t.recorded || ent == NameEnt(hash, result)
  {
    var obf, k :| RenamedVia(t, hash, ci, name, obf, k, result, t');
    if t' == t { assert Taken(t.recorded, hash, obf, 0); }
  }

  lemma {:induction false} NextRecords(cfg: Config, t: Tables, ev: Event, result: Name, t': Tables)
    requires Next(cfg, t, ev, result, t')
    ensures ev.NextInode? ==> t'.recorded == []
    ensures Renames(cfg, t, ev) ==>
              forall ent :: ent in t'.recorded <==> ent in t.recorded || ent == EntOf(cfg, ev, result)
    ensures !ev.NextInode? && !Renames(cfg, t, ev) ==> t'.recorded == t.recorded
  {
    if ev.Attr? {
      RenamedRecords(t, NameHashOf(cfg, false, ev.name), false, ev.name, result, t');
    } else if Renames(cfg, t, ev) {
      var key := KeyOf(cfg, ev);
      var t0 := t.(orphanage := SeeOrphanage(cfg, t.orphanage, ev.dir, ev.ino, ev.name));
      var t1 :| RenamedEntry(cfg, t0, key, result, t', t1);
      RenamedRecords(t0, key.hash, cfg.asciiCi, ev.name, result, t1);
    }
  }

  /** Event j has produced this entry, and the table has not been cleared since. */
  ghost predicate RecordedBy(cfg: Config, ts: seq<Tables>, evs: seq<Event>, rs: seq<Name>, j: nat, k: nat, ent: NameEnt)
    requires |ts| == |evs| + 1 && |rs| == |evs| && k <= |evs|
  {
    && j < k && Renames(cfg, ts[j], evs[j]) && ent == EntOf(cfg, evs[j], rs[j])
    && forall i :: j < i < k ==> !evs[i].NextInode?
  }

  /** The name table holds exactly what events since the last clear have produced. */
  lemma {:induction false} RecordedSinceClear(cfg: Config, ts: seq<Tables>, evs: seq<Event>, rs: seq<Name>, k: nat,
                                              ent: NameEnt)
    requires Dump(cfg, ts, evs, rs) && k <= |evs|
    ensures ent in ts[k].recorded <==> exists j: nat :: RecordedBy(cfg, ts, evs, rs, j, k, ent)
  {
    if k > 0 {
      RecordedSinceClear(cfg, ts, evs, rs, k - 1, ent);
      assert Next(cfg, ts[k - 1], evs[k - 1], rs[k - 1], ts[k]);
      NextRecords(cfg, ts[k - 1], evs[k - 1], rs[k - 1], ts[k]);
      if ent in ts[k].recorded {
        if ent in ts[k - 1].recorded {
          var j: nat :| RecordedBy(cfg, ts, evs, rs, j, k - 1, ent);
          assert RecordedBy(cfg, ts, evs, rs, j, k, ent);
        } else {
          assert RecordedBy(cfg, ts, evs, rs, k - 1, k, ent);
        }
      }
      if exists j: nat :: RecordedBy(cfg, ts, evs, rs, j, k, ent) {
        var j: nat :| RecordedBy(cfg, ts, evs, rs, j, k, ent);
        if j < k - 1 { assert RecordedBy(cfg, ts, evs, rs, j, k - 1, ent); }
      }
    }
  }

  /**
    Every new name is an alternate of an obfuscation of the old one, and is that obfuscation itself
    unless an event since the last clear has already produced it.
  */
  lemma {:induction false} FreshNameKept(cfg: Config, ts: seq<Tables>, evs: seq<Event>, rs: seq<Name>, k: nat)
    returns (obf: Name, i: nat)
    requires Dump(cfg, ts, evs, rs) && k < |evs| && Renames(cfg, ts[k], evs[k])
    ensures var ci := evs[k].Dirent? && cfg.asciiCi;
            Obfuscated(evs[k].name, Hash(evs[k].name, ci), ci, obf)
    ensures FindAlternate(obf, i) == (1, rs[k])
    ensures rs[k] != obf ==> exists j: nat :: RecordedBy(cfg, ts, evs, rs, j, k, EntOf(cfg, evs[k], obf))
  {
    var ev, t := evs[k], ts[k];
    assert Next(cfg, t, ev, rs[k], ts[k + 1]);
    if ev.Dirent? {
      var t0 := t.(orphanage := SeeOrphanage(cfg, t.orphanage, ev.dir, ev.ino, ev.name));
      var t1 :| RenamedEntry(cfg, t0, KeyOf(cfg, ev), rs[k], ts[k + 1], t1);
      obf, i := RenamedHow(t0, KeyOf(cfg, ev).hash, cfg.asciiCi, ev.name, rs[k], t1);
    } else {
      obf, i := RenamedHow(t, NameHashOf(cfg, false, ev.name), false, ev.name, rs[k], ts[k + 1]);
    }
    RecordedSinceClear(cfg, ts, evs, rs, k, EntOf(cfg, ev, obf));
  }

  lemma {:induction false} RenamedHow(t: Tables, hash: bv32, ci: bool, name: Name, result: Name, t': Tables)
    returns (obf: Name, i: nat)
    requires Renamed(t, hash, ci, name, result, t')
    ensures Obfuscated(name, hash, ci, obf) && FindAlternate(obf, i) == (1, result)
    ensures result != obf ==> NameEnt(hash, obf) in t.recorded
  {
    obf, i :| RenamedVia(t, hash, ci, name, obf, i, result, t');
    if result == obf {
      i := 0;
    } else {
      assert i > 0 && Taken(t.recorded, hash, obf, 0);
    }
  }

  /**
    Names do get obfuscated: outside of ascii-ci a name of five bytes or more whose fifth byte from the
    end is no control character is replaced by another, unless an event since the last clear has
    already produced what obfuscation makes of it.
  */
  lemma {:induction false} NamesGetObfuscated(cfg: Config, ts: seq<Tables>, evs: seq<Event>, rs: seq<Name>, k: nat)
    returns (obf: Name)
    requires Dump(cfg, ts, evs, rs) && k < |evs| && Renames(cfg, ts[k], evs[k])
    requires !(evs[k].Dirent? && cfg.asciiCi) && |evs[k].name| >= 5 && evs[k].name[|evs[k].name| - 5] >= 0x20
    ensures |obf| == |evs[k].name| && obf != evs[k].name
    ensures rs[k] == obf || exists j: nat :: RecordedBy(cfg, ts, evs, rs, j, k, EntOf(cfg, evs[k], obf))
  {
    var i;
    obf, i := FreshNameKept(cfg, ts, evs, rs, k);
    ObfuscatedFacts(evs[k].name, Hash(evs[k].name, false), false, obf);
  }

  /** So does the name in a parent pointer whose key is new, and the key is filed with it. */
  lemma {:induction false} PointersGetObfuscated(cfg: Config, ts: seq<Tables>, evs: seq<Event>, rs: seq<Name>, k: nat)
    requires Dump(cfg, ts, evs, rs) && k < |evs| && evs[k].Pptr?
    requires !Skipped(cfg, ts[k], evs[k]) && KeyOf(cfg, evs[k]) !in ts[k].remap
    ensures Obfuscated(evs[k].name, Hash(evs[k].name, cfg.asciiCi), cfg.asciiCi, rs[k])
    ensures ts[k + 1].remap == ts[k].remap[KeyOf(cfg, evs[k]) := rs[k]] && ts[k + 1].recorded == ts[k].recorded
    ensures !cfg.asciiCi && |evs[k].name| >= 5 && evs[k].name[|evs[k].name| - 5] >= 0x20 ==> rs[k] != evs[k].name
  {
    assert Next(cfg, ts[k], evs[k], rs[k], ts[k + 1]);
    ObfuscatedFacts(evs[k].name, Hash(evs[k].name, cfg.asciiCi), cfg.asciiCi, rs[k]);
  }

  /** After a clear the same short name can be used again. */
  lemma {:induction false} ClearForgets(cfg: Config, ts: seq<Tables>, evs: seq<Event>, rs: seq<Name>)
    requires cfg == Config(false, false, 128) && Dump(cfg, ts, evs, rs)
    requires evs == [Dirent(200, 300, [0x61, 0x62]), NextInode, Dirent(201, 400, [0x61, 0x62])]
    ensures rs[2] == [0x61, 0x62]
  {
    assert Next(cfg, ts[0], evs[0], rs[0], ts[1]) && Next(cfg, ts[1], evs[1], rs[1], ts[2]);
    NextOrphanage(cfg, ts[0], evs[0], rs[0], ts[1]);
    NextOrphanage(cfg, ts[1], evs[1], rs[1], ts[2]);
    var obf, i := FreshNameKept(cfg, ts, evs, rs, 2);
    assert evs[1].NextInode?;
  }

  // ---------------------------------------------------------------------------
  // When lost+found becomes known
  // ---------------------------------------------------------------------------

  lemma {:induction false} NextOrphanage(cfg: Config, t: Tables, ev: Event, result: Name, t': Tables)
    requires Next(cfg, t, ev, result, t')
    ensures t'.orphanage == if HasKey(ev) then SeeOrphanage(cfg, t.orphanage, DirOf(ev), InoOf(ev), ev.name)
                            else t.orphanage
  {
  }

  /** The inode taken for lost+found is that of a root entry of this name, and never changes again. */
  lemma {:induction false} OrphanageSettles(cfg: Config, ts: seq<Tables>, evs: seq<Event>, rs: seq<Name>,
                                            i: nat, j: nat)
    returns (m: nat)
    requires Dump(cfg, ts, evs, rs) && i <= j < |ts| && ts[i].orphanage != 0
    ensures ts[j].orphanage == ts[i].orphanage
    ensures m < i && HasKey(evs[m]) && DirOf(evs[m]) == cfg.rootIno && evs[m].name == ORPHANAGE
    ensures InoOf(evs[m]) == ts[i].orphanage && Skipped(cfg, ts[m], evs[m])
    decreases j
  {
    var k := if i < j then j - 1 else i - 1;
    assert Next(cfg, ts[k], evs[k], rs[k], ts[k + 1]);
    NextOrphanage(cfg, ts[k], evs[k], rs[k], ts[k + 1]);
    if i < j {
      m := OrphanageSettles(cfg, ts, evs, rs, i, j - 1);
    } else if ts[k].orphanage != 0 {
      m := OrphanageSettles(cfg, ts, evs, rs, k, k);
    } else {
      m := k;
    }
  }

  lemma {:induction false} DigitIs(d: nat)
    requires d < 10
    ensures DIGITS[d] as int == 48 + d
  {
    assert d == 0 || d == 1 || d == 2 || d == 3 || d == 4 || d == 5 || d == 6 || d == 7 || d == 8 || d == 9;
  }

  /** The name of an orphan ends with the last digit of its inode, and begins with the name for the rest. */
  lemma {:induction false} OrphanNameIs(ino: nat)
    ensures var name := OrphanName(ino); name != [] && name[|name| - 1] as int == 48 + ino % 10
    ensures OrphanName(ino)[..|OrphanName(ino)| - 1] == if ino < 10 then [] else OrphanName(ino / 10)
  {
    DigitIs(ino % 10);
  }

  /**
    Once an entry or parent pointer of the root has given away the inode of lost+found, that inode's
    entries keep their name, and so do those in it that are called after their own inode.
  */
  lemma {:induction false} LostFoundStays(cfg: Config, ts: seq<Tables>, evs: seq<Event>, rs: seq<Name>, j: nat, k: nat)
    requires Dump(cfg, ts, evs, rs) && j <= k < |evs| && HasKey(evs[j]) && HasKey(evs[k])
    requires ts[j].orphanage == 0 && InoOf(evs[j]) != 0 && DirOf(evs[j]) == cfg.rootIno
    requires evs[j].name == [0x6c, 0x6f, 0x73, 0x74, 0x2b, 0x66, 0x6f, 0x75, 0x6e, 0x64]
    requires InoOf(evs[k]) == InoOf(evs[j])
             || (DirOf(evs[k]) == InoOf(evs[j]) && evs[k].name == OrphanName(InoOf(evs[k])))
    ensures rs[k] == evs[k].name
  {
    assert Next(cfg, ts[j], evs[j], rs[j], ts[j + 1]) && Next(cfg, ts[k], evs[k], rs[k], ts[k + 1]);
    NextOrphanage(cfg, ts[j], evs[j], rs[j], ts[j + 1]);
    if j < k { var m := OrphanageSettles(cfg, ts, evs, rs, j + 1, k); }
  }

  lemma {:induction false} OrphanExample()
    ensures OrphanName(10001) == [0x31, 0x30, 0x30, 0x30, 0x31]
  {
    assert Decimal(10, DIGITS) == [0x31, 0x30];
    assert Decimal(100, DIGITS) == [0x31, 0x30, 0x30];
    assert Decimal(1000, DIGITS) == [0x31, 0x30, 0x30, 0x30];
    assert Decimal(10001, DIGITS) == Decimal(1000, DIGITS) + [DIGITS[1]];
  }

  lemma {:induction false} HashFive(a: bv8, b: bv8, c: bv8, d: bv8, e: bv8)
    ensures Hash([a, b, c, d, e], false) == Step(Step(Step(Step(Step(0, a), b), c), d), e)
  {
    var name := [a, b, c, d, e];
    HashPrefix(name, 0, false);
    HashPrefix(name, 1, false);
    HashPrefix(name, 2, false);
    HashPrefix(name, 3, false);
    HashPrefix(name, 4, false);
    assert name[..5] == name && name[..0] == [];
  }

  lemma {:induction false} FiveHashes()
    ensures Step(Step(Step(Step(Step(0, 0x31), 0x30), 0x30), 0x30), 0x31) == 0x160c1832
  {
    assert Step(0, 0x31) == 0x31 && Step(0x31, 0x30) == 0x18b0 && Step(0x18b0, 0x30) == 0xc5830;
    assert Step(0xc5830, 0x30) == 0x62c1830 && Step(0x62c1830, 0x31) == 0x160c1832;
  }

  lemma {:induction false} LateGroups()
    ensures Lacks(0, 0x160c1832) == 0x160c1832 && Grouped(0x160c1832, 0x01, 0x30, 0x30, 0x30, 0x32)
  {
  }

  lemma {:induction false} LateScrambled(after: Name)
    requires after == [0x01, 0x30, 0x30, 0x30, 0x32]
    ensures Scrambled(after, 0x160c1832, false)
  {
    LateGroups();
    ScrambledBy([], 0x160c1832, 0x160c1832, 0x01, 0x30, 0x30, 0x30, 0x32);
    assert [] + after == after;
  }

  /**
    The exception is real: directory 50 is dumped before the root shows it to be lost+found. The entry
    "10001" is renamed, to the only name obfuscate_name can find, but its parent pointer is not.
  */
  lemma {:induction false} LateLostFound(name: Name, after: Name)
    returns (cfg: Config, ts: seq<Tables>, evs: seq<Event>, rs: seq<Name>)
    requires name == [0x31, 0x30, 0x30, 0x30, 0x31] && after == [0x01, 0x30, 0x30, 0x30, 0x32]
    ensures cfg.hasParent && Dump(cfg, ts, evs, rs)
    ensures evs == [Dirent(50, 10001, name), Dirent(cfg.rootIno, 50, ORPHANAGE), Pptr(50, 10001, name)]
    ensures KeyOf(cfg, evs[0]) == KeyOf(cfg, evs[2]) && rs[0] == after && rs[2] == name
  {
    cfg := Config(true, false, 128);
    evs, rs := [Dirent(50, 10001, name), Dirent(128, 50, ORPHANAGE), Pptr(50, 10001, name)], [after, ORPHANAGE, name];
    var key := DirentKey(cfg, 50, name);
    var t0, t1 := Tables([], map[], 0), Tables([NameEnt(key.hash, after)], map[key := after], 0);
    var t2 := t1.(orphanage := 50);
    ts := [t0, t1, t2, t2];
    LateEntry(cfg, key, name, after, t0, t1);
    LateRoot(cfg, name, t1, t2);
    ShortDump(cfg, ts, evs, rs);
  }

  lemma {:induction false} LateRoot(cfg: Config, name: Name, t1: Tables, t2: Tables)
    requires cfg == Config(true, false, 128) && t1.orphanage == 0 && t2 == t1.(orphanage := 50)
    requires name == [0x31, 0x30, 0x30, 0x30, 0x31]
    ensures Next(cfg, t1, Dirent(128, 50, ORPHANAGE), ORPHANAGE, t2)
    ensures Next(cfg, t2, Pptr(50, 10001, name), name, t2)
  {
    OrphanExample();
    assert t2.(orphanage := 50) == t2;
  }

  lemma {:induction false} LateEntry(cfg: Config, key: Key, name: Name, after: Name, t0: Tables, t1: Tables)
    requires cfg == Config(true, false, 128) && key == DirentKey(cfg, 50, name)
    requires name == [0x31, 0x30, 0x30, 0x30, 0x31] && after == [0x01, 0x30, 0x30, 0x30, 0x32]
    requires t0 == Tables([], map[], 0) && t1 == Tables([NameEnt(key.hash, after)], map[key := after], 0)
    ensures Next(cfg, t0, Dirent(50, 10001, name), after, t1)
  {
    HashFive(0x31, 0x30, 0x30, 0x30, 0x31);
    FiveHashes();
    LateScrambled(after);
    var t := t0.(recorded := [NameEnt(key.hash, after)]);
    assert RenamedVia(t0, key.hash, false, name, after, 0, after, t);
    assert RenamedEntry(cfg, t0, key, after, t1, t);
    assert t0.(orphanage := 0) == t0;
  }

  // ---------------------------------------------------------------------------
  // The code: chained hash tables and the routines that use them
  // ---------------------------------------------------------------------------

  const TABLE_SIZE := 4096

  function Index(hash: bv32): (i: nat)
    ensures i < TABLE_SIZE
  {
    hash as int % TABLE_SIZE
  }

  /** The chains of the name table hold exactly `recorded`. */
  ghost predicate NamesHold(chains: seq<seq<NameEnt>>, recorded: seq<NameEnt>) {
    && |chains| == TABLE_SIZE
    && (forall ent: NameEnt :: ent in recorded <==> ent in chains[Index(ent.hash)])
    && (forall b, i :: 0 <= b < TABLE_SIZE && 0 <= i < |chains[b]| ==> Index(chains[b][i].hash) == b)
  }

  /** The chains of the remap table hold exactly `remap`, one entry per key. */
  ghost predicate RemapHolds(chains: seq<seq<RemapEnt>>, remap: map<Key, Name>) {
    && |chains| == TABLE_SIZE
    && (forall ent: RemapEnt :: ent in chains[Index(ent.key.hash)] <==> ent.key in remap && remap[ent.key] == ent.after)
    && (forall b, i :: 0 <= b < TABLE_SIZE && 0 <= i < |chains[b]| ==> Index(chains[b][i].key.hash) == b)
    && (forall b :: 0 <= b < TABLE_SIZE ==> OnePerKey(chains[b]))
    && (forall key :: key in remap ==> |remap[key]| == |key.name|)
  }

  ghost predicate OnePerKey(chain: seq<RemapEnt>) {
    forall i, j :: 0 <= i < j < |chain| ==> chain[i].key != chain[j].key
  }

  lemma {:induction false} RemapAdded(chains: seq<seq<RemapEnt>>, remap: map<Key, Name>, key: Key, after: Name)
    requires RemapHolds(chains, remap) && key !in remap && |after| == |key.name|
    ensures var b := Index(key.hash);
            RemapHolds(chains[b := [RemapEnt(key, after)] + chains[b]], remap[key := after])
  {
    var b := Index(key.hash);
    var chain := [RemapEnt(key, after)] + chains[b];
    forall j | 0 < j < |chain|
      ensures chain[j].key != key
    {
      assert chain[j] in chains[b];
      assert Index(chain[j].key.hash) == b;
    }
    assert OnePerKey(chain);
  }

  class MetaDump {
    const cfg: Config
    var nameTable: seq<seq<NameEnt>>
    var remapTable: seq<seq<RemapEnt>>
    var orphanage: nat
    ghost var recorded: seq<NameEnt>
    ghost var remap: map<Key, Name>

    ghost predicate Valid()
      reads this
    {
      NamesHold(nameTable, recorded) && RemapHolds(remapTable, remap)
    }

    ghost function Abs(): Tables
      reads this
    {
      Tables(recorded, remap, orphanage)
    }

    constructor (cfg: Config)
      ensures Valid() && this.cfg == cfg && Abs() == Tables([], map[], 0)
    {
      this.cfg := cfg;
      nameTable := seq(TABLE_SIZE, _ => []);
      remapTable := seq(TABLE_SIZE, _ => []);
      orphanage, recorded, remap := 0, [], map[];
    }

    /** nametable_clear */
    method NameClear()
      requires Valid()
      modifies this
      ensures Valid() && Next(cfg, old(Abs()), NextInode, [], Abs())
      ensures recorded == [] && remap == old(remap) && orphanage == old(orphanage)
    {
      var i := 0;
      while i < TABLE_SIZE
        invariant 0 <= i <= TABLE_SIZE && |nameTable| == TABLE_SIZE
        invariant forall b :: 0 <= b < i ==> nameTable[b] == []
        invariant remapTable == old(remapTable) && orphanage == old(orphanage) && remap == old(remap)
      {
        nameTable := nameTable[i := []];
        i := i + 1;
      }
      recorded := [];
    }

    /** nametable_find */
    method NameFind(hash: bv32, name: Name) returns (found: bool)
      requires Valid()
      ensures found <==> NameEnt(hash, name) in recorded
    {
      var chain := nameTable[Index(hash)];
      var i := 0;
      found := false;
      while i < |chain| && !found
        invariant 0 <= i <= |chain|
        invariant found <==> NameEnt(hash, name) in chain[..i]
      {
        found := chain[i].hash == hash && chain[i].name == name;
        i := i + 1;
      }
      assert chain[..|chain|] == chain;
      assert Index(NameEnt(hash, name).hash) == Index(hash);
    }

    /** nametable_add */
    method NameAdd(hash: bv32, name: Name)
      requires Valid()
      modifies `nameTable, `recorded
      ensures Valid() && recorded == old(recorded) + [NameEnt(hash, name)]
    {
      var b := Index(hash);
      nameTable := nameTable[b := [NameEnt(hash, name)] + nameTable[b]];
      recorded := recorded + [NameEnt(hash, name)];
    }

    /** remaptable_find */
    method RemapFind(key: Key) returns (found: bool, after: Name)
      requires Valid()
      ensures found <==> key in remap
      ensures found ==> after == remap[key]
    {
      var chain := remapTable[Index(key.hash)];
      var i := 0;
      found, after := false, [];
      while i < |chain| && !found
        invariant 0 <= i <= |chain|
        invariant found ==> RemapEnt(key, after) in chain
        invariant !found ==> forall j :: 0 <= j < i ==> chain[j].key != key
      {
        if chain[i].key == key {
          found, after := true, chain[i].after;
          assert chain[i] == RemapEnt(key, after);
        }
        i := i + 1;
      }
      if key in remap {
        assert RemapEnt(key, remap[key]) in chain;
      }
    }

    /** remaptable_add: the callers have just looked the key up. */
    method RemapAdd(key: Key, after: Name)
      requires Valid() && key !in remap && |after| == |key.name|
      modifies `remapTable, `remap
      ensures Valid() && remap == old(remap)[key := after]
    {
      var b := Index(key.hash);
      RemapAdded(remapTable, remap, key, after);
      remapTable := remapTable[b := [RemapEnt(key, after)] + remapTable[b]];
      remap := remap[key := after];
    }

    /** in_lost_found: notes the inode of "lost+found" when it meets it. */
    method InLostFound(dir: nat, ino: nat, name: Name) returns (exempt: bool)
      modifies `orphanage
      ensures orphanage == SeeOrphanage(cfg, old(orphanage), dir, ino, name)
      ensures exempt <==> Exempt(orphanage, dir, ino, name)
    {
      if orphanage == 0 && dir == cfg.rootIno && name == ORPHANAGE {
        orphanage := ino;
      }
      exempt := ino == orphanage || (dir == orphanage && name == OrphanName(ino));
    }

    /** One alternate: whether it is no name or already taken. */
    method TryAlternate(hash: bv32, name: Name, newName: array<bv8>, sequence: nat) returns (code: int, taken: bool)
      requires Valid() && newName.Length == |name|
      modifies newName
      ensures code == FindAlternate(name, sequence).0 && (taken <==> Taken(recorded, hash, name, sequence))
      ensures !taken ==> FindAlternate(name, sequence) == (1, newName[..]) && NameEnt(hash, newName[..]) !in recorded
    {
      CopyName(newName, name);
      code := Alternates.FindAlternateInPlace(newName, sequence);
      AlternateKeeps(name, sequence);
      taken := true;
      if code == 1 {
        taken := NameFind(hash, newName[..]);
      }
    }

    /** The loop of handle_duplicate_name, over the alternates of a name that is taken. */
    method FindFree(hash: bv32, name: Name, newName: array<bv8>) returns (ok: bool, ghost k: nat)
      requires Valid() && newName.Length == |name| && NameEnt(hash, name) in recorded
      modifies newName
      ensures ok ==> FirstFree(recorded, hash, name, newName[..], k)
      ensures !ok ==> AllTaken(recorded, hash, name)
    {
      var sequence, code, taken := 1, 0, true;
      while taken && code != -1
        invariant 1 <= sequence <= Alternatives(|name|) + 1
        invariant taken ==> TakenBelow(recorded, hash, name, sequence)
        invariant taken && code != -1 ==> sequence <= Alternatives(|name|)
        invariant taken && code == -1 ==> sequence - 1 >= Alternatives(|name|)
        invariant !taken ==> FirstFree(recorded, hash, name, newName[..], sequence - 1)
        decreases taken && code != -1, Alternatives(|name|) + 1 - sequence
      {
        SearchAt(name, sequence);
        code, taken := TryAlternate(hash, name, newName, sequence);
        if taken { TakenMore(recorded, hash, name, sequence); }
        sequence := sequence + 1;
      }
      ok, k := !taken, sequence - 1;
      if taken { BelowIsAll(recorded, hash, name, sequence); }
    }

    /**
      handle_duplicate_name always ends. It leaves the first alternate that is free under this hash,
      or leaves the name as it was because every alternate is taken.
    */
    method HandleDuplicateName(hash: bv32, name: array<bv8>) returns (ok: bool, ghost k: nat)
      requires Valid()
      modifies name
      ensures ok ==> FirstFree(recorded, hash, old(name[..]), name[..], k)
      ensures ok ==> Hash(name[..], false) == old(Hash(name[..], false)) && NameEnt(hash, name[..]) !in recorded
      ensures !ok ==> name[..] == old(name[..]) && AllTaken(recorded, hash, old(name[..]))
    {
      ghost var was := name[..];
      var taken := NameFind(hash, name[..]);
      if !taken {
        return true, 0;
      }
      var newName := new bv8[name.Length];
      ok, k := FindFree(hash, name[..], newName);
      if ok {
        FreeIsGood(recorded, hash, was, newName[..], k);
        CopyName(name, newName[..]);
      }
    }

    /** generate_obfuscated_name for an extended attribute. */
    method ObfuscateAttr(name: array<bv8>, draws: Draws)
      requires Valid() && FromAlphabet(draws)
      modifies this, name
      ensures Valid() && Next(cfg, old(Abs()), Attr(old(name[..])), name[..], Abs())
    {
      var hash := NameHashOf(cfg, false, name[..]);
      var ok := Rename(hash, false, name, draws);
    }

    /** obfuscate_name, whatever the random characters are. */
    static method ObfuscateInPlace(hash: bv32, name: array<bv8>, ci: bool, draws: Draws)
      requires FromAlphabet(draws)
      modifies name
      ensures Obfuscated(old(name[..]), hash, ci, name[..])
    {
      ghost var was := name[..];
      ghost var t, ok := ObfuscateSome(hash, name, ci, draws);
      if name.Length >= 5 && ok { AttemptObfuscates(was, name[..], hash, ci, draws, t); }
    }

    /** The common end of generate_obfuscated_name. */
    method Rename(hash: bv32, ci: bool, name: array<bv8>, draws: Draws) returns (ok: bool)
      requires Valid() && FromAlphabet(draws)
      modifies `nameTable, `recorded, name
      ensures Valid() && Renamed(old(Abs()), hash, ci, old(name[..]), name[..], Abs())
      ensures ok <==> recorded != old(recorded)
    {
      ghost var was := name[..];
      ObfuscateInPlace(hash, name, ci, draws);
      ghost var obf := name[..];
      ghost var k;
      ok, k := HandleDuplicateName(hash, name);
      if ok {
        NameAdd(hash, name[..]);
        assert RenamedVia(old(Abs()), hash, ci, was, obf, k, name[..], Abs());
      } else {
        assert RenamedVia(old(Abs()), hash, ci, was, obf, 0, name[..], Abs());
      }
    }

    /** memcpy */
    static method CopyName(name: array<bv8>, after: Name)
      requires |after| == name.Length
      modifies name
      ensures name[..] == after
    {
      forall i | 0 <= i < name.Length { name[i] := after[i]; }
    }

    /** generate_obfuscated_name for an entry of directory `dir`. */
    method ObfuscateDirent(dir: nat, ino: nat, name: array<bv8>, draws: Draws)
      requires Valid() && ino != 0 && FromAlphabet(draws)
      modifies this, name
      ensures Valid() && Next(cfg, old(Abs()), Dirent(dir, ino, old(name[..])), name[..], Abs())
    {
      var was := name[..];
      var exempt := InLostFound(dir, ino, was);
      if exempt {
        return;
      }
      var key := DirentKey(cfg, dir, was);
      if cfg.hasParent {
        var found, after := RemapFind(key);
        if found {
          CopyName(name, after);
          return;
        }
      }
      ghost var t0 := Abs();
      var ok := Rename(key.hash, cfg.asciiCi, name, draws);
      ghost var t1 := Abs();
      if cfg.hasParent && ok {
        RemapAdd(key, name[..]);
      }
      assert RenamedEntry(cfg, t0, key, name[..], Abs(), t1);
    }

    /** maybe_obfuscate_pptr, for an attribute that is a parent pointer from `child` to `parent`. */
    method ObfuscatePptr(parent: nat, child: nat, name: array<bv8>, draws: Draws)
      requires Valid() && child != 0 && FromAlphabet(draws)
      modifies this, name
      ensures Valid() && Next(cfg, old(Abs()), Pptr(parent, child, old(name[..])), name[..], Abs())
    {
      var was := name[..];
      var exempt := InLostFound(parent, child, was);
      if exempt {
        return;
      }
      var key := DirentKey(cfg, parent, was);
      var found, after := RemapFind(key);
      if found {
        CopyName(name, after);
        return;
      }
      ObfuscateInPlace(key.hash, name, cfg.asciiCi, draws);
      RemapAdd(key, name[..]);
    }
  }
}
