/** Finding the options that a source file uses: the scan looks at aligned words
    of four bytes, and finds what a search of every byte would find. */
module FixdepScan {

  type Byte = bv8

  // "CONFIG_" and "_MODULE"
  const PREFIX: seq<Byte> := [67, 79, 78, 70, 73, 71, 95]
  const MODULE_SUFFIX: seq<Byte> := [95, 77, 79, 68, 85, 76, 69]

  predicate IsWordByte(b: Byte) {
    48 <= b <= 57 || 65 <= b <= 90 || 97 <= b <= 122 || b == 95
  }

  predicate PrefixAt(s: seq<Byte>, p: int) {
    0 <= p && p + 7 <= |s| && s[p..p + 7] == PREFIX
  }

  /** The first place from `q` on that is not part of a name. */
  function NameEnd(s: seq<Byte>, q: nat): (r: nat)
    requires q <= |s|
    ensures q <= r <= |s|
    ensures forall i :: q <= i < r ==> IsWordByte(s[i])
    ensures r < |s| ==> !IsWordByte(s[r])
    decreases |s| - q
  {
    if q < |s| && IsWordByte(s[q]) then NameEnd(s, q + 1) else q
  }

  /** The option named after the prefix at `p`, if one counts: the name must end
      before the file does, `_MODULE` at its end does not belong to it, and
      there is none if that suffix takes in the end of the prefix. */
  function OptionAt(s: seq<Byte>, p: nat): seq<seq<Byte>>
    requires PrefixAt(s, p)
  {
    var q := NameEnd(s, p + 7);
    if q == |s| then []
    else if s[q - 7..q] == MODULE_SUFFIX then
      if q - 7 < p + 7 then [] else [s[p + 7..q - 7]]
    else [s[p + 7..q]]
  }

  /** The options of a file from place `p` on, looking at every byte. */
  function Options(s: seq<Byte>, p: nat): seq<seq<Byte>>
    decreases |s| - p
  {
    if p >= |s| then [] else
      (if PrefixAt(s, p) then OptionAt(s, p) else []) + Options(s, p + 1)
  }

  /** The four bytes of the word at `m`; past the end of the file they are
      zero. */
  function ByteAt(s: seq<Byte>, i: nat): Byte {
    if i < |s| then s[i] else 0
  }

  function Word(s: seq<Byte>, m: nat): seq<Byte> {
    [ByteAt(s, m), ByteAt(s, m + 1), ByteAt(s, m + 2), ByteAt(s, m + 3)]
  }

  /** Where the prefix would have to begin for the aligned word at `m` to be a
      part of it; -1 for any other word. */
  function Candidate(s: seq<Byte>, m: nat): int
    requires m >= 4
  {
    var w := Word(s, m);
    if w == PREFIX[..4] then m
    else if w == PREFIX[1..5] then m - 1
    else if w == PREFIX[2..6] then m - 2
    else if w == PREFIX[3..] then m - 3
    else -1
  }

  /** What the word at `m` contributes. */
  function WordOptions(s: seq<Byte>, m: nat): seq<seq<Byte>>
    requires m >= 4
  {
    var p := Candidate(s, m);
    if PrefixAt(s, p) then OptionAt(s, p) else []
  }

  /** The options of a file as the scan of aligned words finds them. */
  function Scanned(s: seq<Byte>, m: nat): seq<seq<Byte>>
    requires m >= 4
    decreases |s| - m
  {
    if m >= |s| then [] else WordOptions(s, m) + Scanned(s, m + 4)
  }

  // ------------------------------------------------------------------------
  // The two searches agree
  // ------------------------------------------------------------------------

  lemma PrefixBytes(s: seq<Byte>, p: int)
    ensures PrefixAt(s, p) <==>
      0 <= p && p + 7 <= |s|
      && s[p] == 67 && s[p + 1] == 79 && s[p + 2] == 78 && s[p + 3] == 70 && s[p + 4] == 73 && s[p + 5] == 71 && s[p + 6] == 95
  {
    if 0 <= p && p + 7 <= |s| {
      var w := s[p..p + 7];
      assert w[0] == s[p] && w[1] == s[p + 1] && w[2] == s[p + 2] && w[3] == s[p + 3];
      assert w[4] == s[p + 4] && w[5] == s[p + 5] && w[6] == s[p + 6];
    }
  }

  /** Of four neighbouring places at most one begins with the prefix, and the
      aligned word that they all reach into tells which. */
  lemma WordDecides(s: seq<Byte>, m: nat, p: int)
    requires 4 <= m && m - 3 <= p <= m
    ensures PrefixAt(s, p) ==> Candidate(s, m) == p
  {
    if PrefixAt(s, p) {
      PrefixBytes(s, p);
      var w := Word(s, m);
      assert PREFIX[..4] == [67, 79, 78, 70] && PREFIX[1..5] == [79, 78, 70, 73];
      assert PREFIX[2..6] == [78, 70, 73, 71] && PREFIX[3..] == [70, 73, 71, 95];
      assert w[0] == ByteAt(s, m);
    }
  }

  lemma {:induction false} NoneNearEnd(s: seq<Byte>, p: nat)
    requires p + 7 > |s|
    ensures Options(s, p) == []
    decreases |s| - p
  {
    if p < |s| {
      NoneNearEnd(s, p + 1);
    }
  }

  function At(s: seq<Byte>, p: int): seq<seq<Byte>> {
    if PrefixAt(s, p) then OptionAt(s, p) else []
  }

  lemma OptionsStep(s: seq<Byte>, p: nat)
    ensures Options(s, p) == At(s, p) + Options(s, p + 1)
  {
  }

  lemma ScannedStep(s: seq<Byte>, m: nat)
    requires m >= 4
    ensures Scanned(s, m) == if m >= |s| then [] else WordOptions(s, m) + Scanned(s, m + 4)
  {
  }

  /** What the four places contribute that reach into the word at `m`. */
  function Chunk(s: seq<Byte>, m: int): seq<seq<Byte>> {
    At(s, m - 3) + (At(s, m - 2) + (At(s, m - 1) + At(s, m)))
  }

  lemma CandidateNear(s: seq<Byte>, m: nat)
    requires m >= 4
    ensures PrefixAt(s, Candidate(s, m)) ==> m - 3 <= Candidate(s, m) <= m
  {
    hide Word;
  }

  lemma WordIsFour(s: seq<Byte>, m: nat)
    requires m >= 4
    ensures WordOptions(s, m) == Chunk(s, m)
  {
    CandidateNear(s, m);
    hide OptionAt, Candidate, PrefixAt;
    WordDecides(s, m, m - 3);
    WordDecides(s, m, m - 2);
    WordDecides(s, m, m - 1);
    WordDecides(s, m, m);
    var p := Candidate(s, m);
    assert WordOptions(s, m) == At(s, p);
    OnlyOne(s, m, p);
  }

  /** At most one of the four places contributes. */
  lemma OnlyOne(s: seq<Byte>, m: int, p: int)
    requires forall q :: m - 3 <= q <= m && q != p ==> !PrefixAt(s, q)
    requires PrefixAt(s, p) ==> m - 3 <= p <= m
    ensures Chunk(s, m) == At(s, p)
  {
    hide OptionAt, PrefixAt;
    assert forall q :: m - 3 <= q <= m && q != p ==> At(s, q) == [];
  }

  lemma OptionsFour(s: seq<Byte>, m: nat)
    requires m >= 4
    ensures Options(s, m - 3) == Chunk(s, m) + Options(s, m + 1)
  {
    hide At, Options;
    OptionsStep(s, m - 3);
    OptionsStep(s, m - 2);
    OptionsStep(s, m - 1);
    OptionsStep(s, m);
    Regroup(At(s, m - 3), At(s, m - 2), At(s, m - 1), At(s, m), Options(s, m + 1));
  }

  lemma Regroup<T>(a: seq<T>, b: seq<T>, c: seq<T>, d: seq<T>, e: seq<T>)
    ensures (a + (b + (c + d))) + e == a + (b + (c + (d + e)))
  {
  }

  /** The scan of aligned words finds the same options, in the same order and
      each as often, as the search of all bytes but the first. */
  lemma {:induction false} ScanIsSearch(s: seq<Byte>, m: nat)
    requires m >= 4
    ensures Scanned(s, m) == Options(s, m - 3)
    decreases |s| - m
  {
    hide OptionAt, WordOptions, At, Options, Scanned, Chunk;
    ScannedStep(s, m);
    if m >= |s| {
      NoneNearEnd(s, m - 3);
    } else {
      ScanIsSearch(s, m + 4);
      WordIsFour(s, m);
      OptionsFour(s, m);
    }
  }

  /** A file that begins with an option hides that one use of it from the scan,
      and no others. */
  lemma FirstByteMissed(s: seq<Byte>)
    ensures Options(s, 0) == (if PrefixAt(s, 0) then OptionAt(s, 0) else []) + Scanned(s, 4)
  {
    ScanIsSearch(s, 4);
    OptionsStep(s, 0);
  }
}
