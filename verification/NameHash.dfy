/**
  The directory and attribute name hash that obfuscation has to preserve: libxfs/xfs_da_btree.c
  (xfs_da_hashname) and the ascii-ci variant of libxfs/xfs_dir2.c, as db/obfuscate.c folds them.
*/
module NameHash {

  type Name = seq<bv8>

  /** is_invalid_char: '/' or NUL. */
  predicate Invalid(c: bv8) { c == 0x2f || c == 0 }

  predicate ValidName(name: Name) {
    forall i :: 0 <= i < |name| ==> !Invalid(name[i])
  }

  /** xfs_ascii_ci_need_xfrm */
  predicate NeedsXfrm(c: bv8) {
    0x41 <= c <= 0x5a || 0xc0 <= c <= 0xd6 || 0xd8 <= c <= 0xde
  }

  /** xfs_ascii_ci_xfrm: to lower case. */
  function Xfrm(c: bv8): bv8 {
    if NeedsXfrm(c) then c + 0x20 else c
  }

  /** Latin-1 capitals become small letters; what lies just outside of them stays. */
  lemma {:induction false} XfrmEdges()
    ensures Xfrm(0x40) == 0x40 && Xfrm(0x41) == 0x61 && Xfrm(0x5a) == 0x7a && Xfrm(0x5b) == 0x5b
    ensures Xfrm(0xbf) == 0xbf && Xfrm(0xc0) == 0xe0 && Xfrm(0xd6) == 0xf6 && Xfrm(0xd7) == 0xd7
    ensures Xfrm(0xd8) == 0xf8 && Xfrm(0xde) == 0xfe && Xfrm(0xdf) == 0xdf
  {
  }

  function Rol7(h: bv32): bv32 { (h << 7) | (h >> 25) }

  function Rol3(h: bv32): bv32 { (h << 3) | (h >> 29) }

  function Rol14(h: bv32): bv32 { (h << 14) | (h >> 18) }

  function Rol21(h: bv32): bv32 { (h << 21) | (h >> 11) }

  function Rol28(h: bv32): bv32 { (h << 28) | (h >> 4) }

  /** One character of the hash. */
  function Step(h: bv32, c: bv8): bv32 { (c as bv32) ^ Rol7(h) }

  /** The byte that enters the hash: folded to lower case on an ascii-ci filesystem. */
  function Folded(c: bv8, ci: bool): bv8 { if ci then Xfrm(c) else c }

  /** The hash of a name, one character at a time. */
  function Hash(name: Name, ci: bool): bv32 {
    if name == [] then 0
    else Step(Hash(name[..|name| - 1], ci), Folded(name[|name| - 1], ci))
  }

  lemma {:induction false} HashAppend(name: Name, c: bv8, ci: bool)
    ensures Hash(name + [c], ci) == Step(Hash(name, ci), Folded(c, ci))
  {
    assert (name + [c])[..|name|] == name;
  }

  lemma {:induction false} HashPrefix(name: Name, k: nat, ci: bool)
    requires k < |name|
    ensures Hash(name[..k + 1], ci) == Step(Hash(name[..k], ci), Folded(name[k], ci))
  {
    assert name[..k + 1][..k] == name[..k];
  }

  /** The unrolled forms of xfs_da_hashname. */
  function Four(h: bv32, a: bv8, b: bv8, c: bv8, d: bv8): bv32 {
    ((a as bv32) << 21) ^ ((b as bv32) << 14) ^ ((c as bv32) << 7) ^ (d as bv32) ^ Rol28(h)
  }

  function Three(h: bv32, a: bv8, b: bv8, c: bv8): bv32 {
    ((a as bv32) << 14) ^ ((b as bv32) << 7) ^ (c as bv32) ^ Rol21(h)
  }

  function Two(h: bv32, a: bv8, b: bv8): bv32 {
    ((a as bv32) << 7) ^ (b as bv32) ^ Rol14(h)
  }

  lemma {:induction false} FourSteps(h: bv32, a: bv8, b: bv8, c: bv8, d: bv8)
    ensures Step(Step(Step(Step(h, a), b), c), d) == Four(h, a, b, c, d)
  {
  }

  lemma {:induction false} ThreeSteps(h: bv32, a: bv8, b: bv8, c: bv8)
    ensures Step(Step(Step(h, a), b), c) == Three(h, a, b, c)
  {
  }

  lemma {:induction false} TwoSteps(h: bv32, a: bv8, b: bv8)
    ensures Step(Step(h, a), b) == Two(h, a, b)
  {
  }

  lemma {:induction false} HashTwo(name: Name, i: nat)
    requires i + 2 <= |name|
    ensures Hash(name[..i + 2], false) == Two(Hash(name[..i], false), name[i], name[i + 1])
  {
    HashPrefix(name, i, false);
    HashPrefix(name, i + 1, false);
    TwoSteps(Hash(name[..i], false), name[i], name[i + 1]);
  }

  lemma {:induction false} HashThree(name: Name, i: nat)
    requires i + 3 <= |name|
    ensures Hash(name[..i + 3], false) == Three(Hash(name[..i], false), name[i], name[i + 1], name[i + 2])
  {
    HashPrefix(name, i, false);
    HashPrefix(name, i + 1, false);
    HashPrefix(name, i + 2, false);
    ThreeSteps(Hash(name[..i], false), name[i], name[i + 1], name[i + 2]);
  }

  lemma {:induction false} HashFour(name: Name, i: nat)
    requires i + 4 <= |name|
    ensures Hash(name[..i + 4], false)
         == Four(Hash(name[..i], false), name[i], name[i + 1], name[i + 2], name[i + 3])
  {
    HashPrefix(name, i, false);
    HashPrefix(name, i + 1, false);
    HashPrefix(name, i + 2, false);
    HashPrefix(name, i + 3, false);
    FourSteps(Hash(name[..i], false), name[i], name[i + 1], name[i + 2], name[i + 3]);
  }

  /** xfs_da_hashname, four characters at a time, computes the character-at-a-time hash. */
  method DaHashName(name: Name) returns (hash: bv32)
    ensures hash == Hash(name, false)
  {
    hash := 0;
    var i := 0;
    while |name| - i >= 4
      invariant 0 <= i <= |name|
      invariant hash == Hash(name[..i], false)
    {
      HashFour(name, i);
      hash := Four(hash, name[i], name[i + 1], name[i + 2], name[i + 3]);
      i := i + 4;
    }
    assert name[..|name|] == name;
    if |name| - i == 3 {
      HashThree(name, i);
      hash := Three(hash, name[i], name[i + 1], name[i + 2]);
    } else if |name| - i == 2 {
      HashTwo(name, i);
      hash := Two(hash, name[i], name[i + 1]);
    } else if |name| - i == 1 {
      HashPrefix(name, i, false);
      hash := Step(hash, name[i]);
    }
  }
}
