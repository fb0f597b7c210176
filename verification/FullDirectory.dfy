/**
  A dump in which a directory has so many names of one hash that every alternate is taken, so that
  an entry is not filed and its parent pointer is renamed on its own (db/metadump.c,
  generate_obfuscated_name and maybe_obfuscate_pptr).
*/
module FullDirectory {
  import opened Alternates
  import opened NameHash
  import opened NameTables
  import opened Obfuscate

  predicate IsAlternate(a: Name, name: Name, i: nat) { FindAlternate(a, i) == (1, name) }

  ghost predicate SomeAlternate(a: Name, name: Name) {
    exists i: nat :: IsAlternate(a, name, i)
  }

  /** Alternates 0 to n - 1 of a are recorded, and nothing but alternates of a is recorded or remapped. */
  ghost predicate Filled(t: Tables, a: Name, hash: bv32, n: nat) {
    && t.orphanage == 0 && TakenBelow(t.recorded, hash, a, n)
    && (forall ent :: ent in t.recorded ==> SomeAlternate(a, ent.name))
    && (forall key :: key in t.remap ==> NameEnt(hash, key.name) in t.recorded)
  }

  lemma {:induction false} DumpMore(cfg: Config, ts: seq<Tables>, evs: seq<Event>, rs: seq<Name>, ev: Event,
                                    result: Name, t': Tables)
    requires Dump(cfg, ts, evs, rs) && Next(cfg, ts[|evs|], ev, result, t')
    ensures Dump(cfg, ts + [t'], evs + [ev], rs + [result])
  {
    var us, fs, qs := ts + [t'], evs + [ev], rs + [result];
    forall k | 0 <= k < |fs|
      ensures Next(cfg, us[k], fs[k], qs[k], us[k + 1])
    {
      if k < |evs| { assert Next(cfg, ts[k], evs[k], rs[k], ts[k + 1]); }
    }
  }

  /** An entry named after the next alternate, which obfuscation turns into a and the search back again. */
  lemma {:induction false} FillStep(cfg: Config, t: Tables, a: Name, hash: bv32, n: nat, name: Name, t': Tables)
    requires cfg == Config(true, false, 128) && Scrambled(a, hash, false)
    requires Filled(t, a, hash, n) && IsAlternate(a, name, n) && NameEnt(hash, name) !in t.recorded
    requires t' == t.(recorded := t.recorded + [NameEnt(hash, name)],
                      remap := t.remap[DirentKey(cfg, 50, name) := name])
    ensures Next(cfg, t, Dirent(50, 10, name), name, t') && Filled(t', a, hash, n + 1)
  {
    AlternateKeeps(a, n);
    ScrambledFacts(a, hash, false);
    var key := DirentKey(cfg, 50, name);
    var t1 := t.(recorded := t.recorded + [NameEnt(hash, name)]);
    assert RenamedVia(t, hash, false, name, a, n, name, t1);
    assert RenamedEntry(cfg, t, key, name, t', t1);
    assert t.(orphanage := 0) == t;
    FilledMore(t, a, hash, n, key, t');
  }

  lemma {:induction false} FilledMore(t: Tables, a: Name, hash: bv32, n: nat, key: Key, t': Tables)
    requires Filled(t, a, hash, n) && IsAlternate(a, key.name, n)
    requires t' == t.(recorded := t.recorded + [NameEnt(hash, key.name)], remap := t.remap[key := key.name])
    ensures Filled(t', a, hash, n + 1)
  {
    forall i | 0 <= i < n + 1
      ensures Taken(t'.recorded, hash, a, i)
    {
      if i < n { assert Taken(t.recorded, hash, a, i); }
    }
    assert SomeAlternate(a, key.name);
  }

  /** The entries of a directory that take the alternates of a one by one. */
  lemma {:induction false} FillTo(cfg: Config, a: Name, hash: bv32, n: nat)
    returns (ts: seq<Tables>, evs: seq<Event>, rs: seq<Name>)
    requires cfg == Config(true, false, 128) && Scrambled(a, hash, false)
    ensures Dump(cfg, ts, evs, rs) && Filled(ts[|evs|], a, hash, n)
  {
    if n == 0 {
      ts, evs, rs := [Tables([], map[], 0)], [], [];
    } else {
      ts, evs, rs := FillTo(cfg, a, hash, n - 1);
      var t, alt := ts[|evs|], FindAlternate(a, n - 1);
      if alt.0 == 1 && NameEnt(hash, alt.1) !in t.recorded {
        var name := alt.1;
        var t' := t.(recorded := t.recorded + [NameEnt(hash, name)],
                     remap := t.remap[DirentKey(cfg, 50, name) := name]);
        FillStep(cfg, t, a, hash, n - 1, name, t');
        DumpMore(cfg, ts, evs, rs, Dirent(50, 10, name), name, t');
        ts, evs, rs := ts + [t'], evs + [Dirent(50, 10, name)], rs + [name];
      } else {
        TakenMore(t.recorded, hash, a, n - 1);
      }
    }
  }

  /** With all alternates of a taken, an entry that is obfuscated to a stays so, and is not filed. */
  lemma {:induction false} LeftOver(cfg: Config, t: Tables, a: Name, hash: bv32, name: Name)
    requires cfg == Config(true, false, 128) && |a| == |name| && Scrambled(a, hash, false)
    requires hash == Hash(name, false)
    requires Filled(t, a, hash, Alternatives(|a|)) && !SomeAlternate(a, name)
    ensures Next(cfg, t, Dirent(50, 10, name), a, t)
    ensures !Skipped(cfg, t, Dirent(50, 10, name)) && Unfiled(cfg, t, Dirent(50, 10, name), a)
  {
    var key := DirentKey(cfg, 50, name);
    BelowIsAll(t.recorded, hash, a, Alternatives(|a|));
    assert Taken(t.recorded, hash, a, 0);
    assert key !in t.remap;
    assert RenamedVia(t, hash, false, name, a, 0, a, t);
    assert RenamedEntry(cfg, t, key, a, t, t);
    assert t.(orphanage := 0) == t;
  }

  /**
    For any two names a and c that obfuscation can make of `name`, which is not an alternate of a: there
    is a dump in which the entry `name` of directory 50 becomes a and its parent pointer becomes c.
  */
  lemma {:induction false} UnfiledNamesPart(a: Name, name: Name, c: Name)
    returns (cfg: Config, ts: seq<Tables>, evs: seq<Event>, rs: seq<Name>, n: nat)
    requires |a| == |name| == |c| && !SomeAlternate(a, name)
    requires Scrambled(a, Hash(name, false), false) && Scrambled(c, Hash(name, false), false)
    ensures cfg.hasParent && Dump(cfg, ts, evs, rs) && |evs| == n + 2
    ensures evs[n] == Dirent(50, 10, name) && evs[n + 1] == Pptr(50, 10, name)
    ensures !Skipped(cfg, ts[n], evs[n]) && !Skipped(cfg, ts[n + 1], evs[n + 1])
    ensures rs[n] == a && rs[n + 1] == c
  {
    cfg := Config(true, false, 128);
    ts, evs, rs := FillTo(cfg, a, Hash(name, false), Alternatives(|a|));
    n := |evs|;
    var t, key := ts[n], DirentKey(cfg, 50, name);
    LeftOver(cfg, t, a, Hash(name, false), name);
    DumpMore(cfg, ts, evs, rs, Dirent(50, 10, name), a, t);
    ts, evs, rs := ts + [t], evs + [Dirent(50, 10, name)], rs + [a];
    UnfiledIsFree(cfg, t, 50, 10, name, a, t, c);
    var t' := t.(remap := t.remap[key := c]);
    DumpMore(cfg, ts, evs, rs, Pptr(50, 10, name), c, t');
    ts, evs, rs := ts + [t'], evs + [Pptr(50, 10, name)], rs + [c];
  }

  lemma {:induction false} HashSix(a: bv8, b: bv8, c: bv8, d: bv8, e: bv8, f: bv8)
    ensures Hash([a, b, c, d, e, f], false) == Step(Step(Step(Step(Step(Step(0, a), b), c), d), e), f)
  {
    HashFive(a, b, c, d, e);
    HashAppend([a, b, c, d, e], f, false);
    assert [a, b, c, d, e] + [f] == [a, b, c, d, e, f];
  }

  lemma {:induction false} SixHashes()
    ensures Step(Step(Step(Step(Step(Step(0, 0x73), 0x65), 0x63), 0x72), 0x65), 0x74) == 0x5c7cb16a
  {
    assert Step(0, 0x73) == 0x73 && Step(0x73, 0x65) == 0x39e5 && Step(0x39e5, 0x63) == 0x1cf2e3;
    assert Step(0x1cf2e3, 0x72) == 0xe7971f2 && Step(0xe7971f2, 0x65) == 0x3cb8f962;
    assert Step(0x3cb8f962, 0x74) == 0x5c7cb16a;
  }

  lemma {:induction false} SecretGroups()
    ensures Lacks(0x61, 0x5c7cb16a) == 0x5c7cb262 && Grouped(0x5c7cb262, 0x05, 0x63, 0x72, 0x64, 0x62)
    ensures Lacks(0x62, 0x5c7cb16a) == 0x5c7cb27a && Grouped(0x5c7cb27a, 0x05, 0x63, 0x72, 0x64, 0x7a)
  {
  }

  lemma {:induction false} HashOne(c: bv8)
    ensures Hash([c], false) == Step(0, c)
  {
    HashPrefix([c], 0, false);
    assert [c][..1] == [c] && [c][..0] == [];
  }

  lemma {:induction false} SecretScrambled(a: Name, c: Name)
    requires a == [0x61, 0x05, 0x63, 0x72, 0x64, 0x62] && c == [0x62, 0x05, 0x63, 0x72, 0x64, 0x7a]
    ensures Scrambled(a, 0x5c7cb16a, false) && Scrambled(c, 0x5c7cb16a, false)
  {
    HashOne(0x61);
    HashOne(0x62);
    assert Step(0, 0x61) == 0x61 && Step(0, 0x62) == 0x62;
    SecretGroups();
    ScrambledBy([0x61], 0x5c7cb16a, 0x5c7cb262, 0x05, 0x63, 0x72, 0x64, 0x62);
    ScrambledBy([0x62], 0x5c7cb16a, 0x5c7cb27a, 0x05, 0x63, 0x72, 0x64, 0x7a);
    assert [0x61] + [0x05, 0x63, 0x72, 0x64, 0x62] == a && [0x62] + [0x05, 0x63, 0x72, 0x64, 0x7a] == c;
  }

  /** No row flips bit 5 of the second of six bytes. */
  lemma {:induction false} SecondByteKeeps(a: Name, name: Name, i: nat)
    requires |a| == 6 && IsAlternate(a, name, i)
    ensures |name| == 6 && HasBit(name[1], 5) == HasBit(a[1], 5)
  {
    AlternateKeeps(a, i);
    FindToggles(a, i, 0, 1, 5);
    OddNone(i, 6, 0, 1, 5);
    assert BitAt(name, 1, 5) == HasBit(name[1], 5) && BitAt(a, 1, 5) == HasBit(a[1], 5);
  }

  /**
    The entry "secret" becomes "a.crdb" and its parent pointer "b.crdz", with the byte 5 in place of the dot:
    what obfuscate_name makes of it with the random characters a and b.
  */
  lemma {:induction false} SecretParts(a: Name, name: Name, c: Name)
    returns (cfg: Config, ts: seq<Tables>, evs: seq<Event>, rs: seq<Name>, n: nat)
    requires name == [0x73, 0x65, 0x63, 0x72, 0x65, 0x74]
    requires a == [0x61, 0x05, 0x63, 0x72, 0x64, 0x62] && c == [0x62, 0x05, 0x63, 0x72, 0x64, 0x7a]
    ensures cfg.hasParent && Dump(cfg, ts, evs, rs) && |evs| == n + 2
    ensures evs[n] == Dirent(50, 10, name) && evs[n + 1] == Pptr(50, 10, name) && rs[n] != rs[n + 1]
  {
    HashSix(0x73, 0x65, 0x63, 0x72, 0x65, 0x74);
    SixHashes();
    SecretScrambled(a, c);
    if SomeAlternate(a, name) {
      var i: nat :| IsAlternate(a, name, i);
      SecondByteKeeps(a, name, i);
      assert false;
    }
    cfg, ts, evs, rs, n := UnfiledNamesPart(a, name, c);
  }
}
