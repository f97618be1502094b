/** The set of options that files use, kept in a hash table, and the list of the
    files that stand for them. */
module Fixdep {
  import opened Pigeonhole
  import opened FixdepScan

  type Name = seq<Byte>

  datatype Item = Item(hash: bv32, name: Name)

  const HASH_SIZE := 256

  function HashStep(h: bv32, c: Byte): bv32 {
    (h ^ (c as bv32)) * 0x01000193
  }

  function StrHash(s: Name): bv32 {
    if s == [] then 2166136261 else HashStep(StrHash(s[..|s| - 1]), s[|s| - 1])
  }

  function Bucket(h: bv32): (b: nat)
    ensures b < HASH_SIZE
  {
    (h & 0xff) as nat
  }

  /** The name of an option's file: in lower case, with a directory for each
      part of the name. */
  function Path(s: Name): Name {
    if s == [] then [] else
      var c := s[|s| - 1];
      Path(s[..|s| - 1]) + [if c == 95 then 47 else if 65 <= c <= 90 then c + 32 else c]
  }

  function Paths(names: seq<Name>): seq<Name> {
    if names == [] then [] else Paths(names[..|names| - 1]) + [Path(names[|names| - 1])]
  }

  /** The names in the order of their first use. */
  function FirstUses(used: seq<Name>, names: seq<Name>): seq<Name> {
    if names == [] then used else
      var before := FirstUses(used, names[..|names| - 1]);
      var last := names[|names| - 1];
      if last in before then before else before + [last]
  }

  /** Every name once, and no name that was not used. */
  lemma {:induction false} FirstUsesAre(used: seq<Name>, names: seq<Name>)
    requires Distinct(used)
    ensures Distinct(FirstUses(used, names)) && used <= FirstUses(used, names)
    ensures forall n :: n in FirstUses(used, names) <==> n in used || n in names
  {
    if names != [] {
      var init := names[..|names| - 1];
      FirstUsesAre(used, init);
      assert names == init + [names[|names| - 1]];
    }
  }

  lemma {:induction false} FirstUsesJoin(used: seq<Name>, a: seq<Name>, b: seq<Name>)
    ensures FirstUses(used, a + b) == FirstUses(FirstUses(used, a), b)
  {
    if b == [] {
      assert a + b == a;
    } else {
      FirstUsesJoin(used, a, b[..|b| - 1]);
      assert (a + b)[..|a + b| - 1] == a + b[..|b| - 1];
    }
  }

  /** Each chain holds the names whose hash leads to it, and the chains hold the
      names that have been used. */
  ghost predicate Holds(table: seq<seq<Item>>, used: seq<Name>) {
    && |table| == HASH_SIZE
    && (forall b, i :: 0 <= b < HASH_SIZE && 0 <= i < |table[b]| ==> table[b][i] == Item(StrHash(table[b][i].name), table[b][i].name))
    && forall n :: n in used <==> Item(StrHash(n), n) in table[Bucket(StrHash(n))]
  }

  class ConfigSet {

    var hashtab: seq<seq<Item>>
    var printed: seq<Name>
    ghost var used: seq<Name>

    ghost predicate Valid()
      reads this
    {
      Holds(hashtab, used) && Distinct(used) && printed == Paths(used)
    }

    constructor ()
      ensures Valid() && used == []
    {
      hashtab := seq(HASH_SIZE, _ => []);
      printed, used := [], [];
    }

    method Hash(s: Name) returns (h: bv32)
      ensures h == StrHash(s)
    {
      h := 2166136261;
      for i := 0 to |s|
        invariant h == StrHash(s[..i])
      {
        h := HashStep(h, s[i]);
        assert s[..i + 1][..i] == s[..i];
      }
      assert s[..|s|] == s;
    }

    method IsDefinedConfig(name: Name, hash: bv32) returns (found: bool)
      requires Valid() && hash == StrHash(name)
      ensures found <==> name in used
    {
      var chain := hashtab[Bucket(hash)];
      for i := 0 to |chain|
        invariant Item(hash, name) !in chain[..i]
      {
        if chain[i].hash == hash && chain[i].name == name {
          assert chain[i] == Item(hash, name);
          return true;
        }
      }
      assert chain[..|chain|] == chain;
      return false;
    }

    method DefineConfig(name: Name, hash: bv32)
      requires Valid() && hash == StrHash(name) && name !in used
      modifies this`hashtab, this`used
      ensures Holds(hashtab, used) && Distinct(used) && used == old(used) + [name]
    {
      var b := Bucket(hash);
      Prepended(hashtab, used, name);
      hashtab := hashtab[b := [Item(hash, name)] + hashtab[b]];
      used := used + [name];
    }

    /** Records the use of an option; the first time its file is listed. */
    method UseConfig(name: Name)
      requires Valid()
      modifies this
      ensures Valid() && used == FirstUses(old(used), [name])
    {
      hide Holds, Distinct, Paths, FirstUses, StrHash;
      var hash := Hash(name);
      var found := IsDefinedConfig(name, hash);
      OneUse(used, name);
      if found { return; }
      PathsOne(used, name);
      DefineConfig(name, hash);
      var path := FileOf(name);
      printed := printed + [path];
    }

    method FileOf(name: Name) returns (path: Name)
      ensures path == Path(name)
    {
      path := [];
      for i := 0 to |name|
        invariant path == Path(name[..i])
      {
        var c := name[i];
        path := path + [if c == 95 then 47 else if 65 <= c <= 90 then c + 32 else c];
        assert name[..i + 1][..i] == name[..i];
      }
      assert name[..|name|] == name;
    }

    /** Scans a file. Afterwards the options that the file mentions after its
        first byte have been used, in addition to those used before. */
    method ParseConfigFile(file: seq<Byte>)
      requires Valid()
      modifies this
      ensures Valid() && used == FirstUses(old(used), Options(file, 1))
    {
      hide Options, Scanned, WordOptions, Holds, Distinct, Paths, FirstUses;
      var m := 4;
      ScanIsSearch(file, 4);
      while m < |file|
        invariant m >= 4 && Valid()
        invariant FirstUses(used, Scanned(file, m)) == FirstUses(old(used), Options(file, 1))
      {
        ScanOn(used, file, m);
        ParseWord(file, m);
        m := m + 4;
      }
      ScanOn(used, file, m);
    }

    /** Looks at one aligned word. */
    method ParseWord(file: seq<Byte>, m: nat)
      requires Valid() && 4 <= m < |file|
      modifies this
      ensures Valid() && used == FirstUses(old(used), WordOptions(file, m))
    {
      hide Holds, Distinct, Paths, Candidate;
      assert FirstUses(used, []) == used;
      var p := Candidate(file, m);
      if p < 0 || p > |file| - 7 || file[p..p + 7] != PREFIX { return; }
      var q := p + 7;
      while q < |file| && IsWordByte(file[q])
        invariant p + 7 <= q <= |file| && NameEnd(file, q) == NameEnd(file, p + 7)
      {
        q := q + 1;
      }
      if q == |file| { return; }
      if file[q - 7..q] == MODULE_SUFFIX {
        q := q - 7;
      }
      if q < p + 7 { return; }
      UseConfig(file[p + 7..q]);
    }
  }

  lemma Prepended(table: seq<seq<Item>>, used: seq<Name>, name: Name)
    requires Holds(table, used) && name !in used && Distinct(used)
    ensures
      var b := Bucket(StrHash(name));
      Holds(table[b := [Item(StrHash(name), name)] + table[b]], used + [name])
    ensures Distinct(used + [name])
  {
    hide StrHash, Bucket, Distinct;
    var b := Bucket(StrHash(name));
    var t := table[b := [Item(StrHash(name), name)] + table[b]];
    forall n ensures n in used + [name] <==> Item(StrHash(n), n) in t[Bucket(StrHash(n))] {
      assert n in used <==> Item(StrHash(n), n) in table[Bucket(StrHash(n))];
    }
    DistinctPlus(used, name);
  }

  lemma ScanOn(used: seq<Name>, file: seq<Byte>, m: nat)
    requires m >= 4
    ensures FirstUses(used, Scanned(file, m)) ==
      if m >= |file| then used else FirstUses(FirstUses(used, WordOptions(file, m)), Scanned(file, m + 4))
  {
    hide WordOptions;
    ScannedStep(file, m);
    if m < |file| {
      FirstUsesJoin(used, WordOptions(file, m), Scanned(file, m + 4));
    }
  }

  lemma OneUse(used: seq<Name>, name: Name)
    ensures FirstUses(used, [name]) == if name in used then used else used + [name]
  {
    assert [name][..0] == [];
    assert FirstUses(used, []) == used;
  }

  lemma PathsOne(used: seq<Name>, name: Name)
    ensures Paths(used + [name]) == Paths(used) + [Path(name)]
  {
    assert (used + [name])[..|used|] == used;
  }
}
