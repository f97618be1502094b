/** Which options a file mentions, and what is printed for them, in characters. */
module FixdepText {
  import opened AsciiText
  import opened FixdepScan
  import opened Fixdep

  /** What may stand in the name of an option. */
  predicate NameCharacter(b: Byte) {
    var c := b as char;
    'A' <= c <= 'Z' || 'a' <= c <= 'z' || '0' <= c <= '9' || c == '_'
  }

  /** The longest run of name characters from a on ends at q, and the file goes on behind it. */
  predicate RunEnds(s: seq<Byte>, a: nat, q: nat) {
    a <= q < |s| && (forall i :: a <= i < q ==> NameCharacter(s[i])) && !NameCharacter(s[q])
  }

  lemma RunIs(s: seq<Byte>, a: nat, q: nat)
    requires a <= |s|
    ensures RunEnds(s, a, q) <==> q < |s| && NameEnd(s, a) == q
  {
  }

  lemma RunsAre(s: seq<Byte>, a: nat)
    requires a <= |s|
    ensures forall q: nat {:trigger RunEnds(s, a, q)} :: RunEnds(s, a, q) <==> q < |s| && NameEnd(s, a) == q
  {
    forall q: nat {:trigger RunEnds(s, a, q)}
      ensures RunEnds(s, a, q) <==> q < |s| && NameEnd(s, a) == q
    {
      RunIs(s, a, q);
    }
  }

  predicate EndsWith(s: seq<Byte>, t: seq<Byte>) {
    |t| <= |s| && s[|s| - |t|..] == t
  }

  /** CONFIG_ and the name, and nothing else but a _MODULE at the end, which is not part of it. */
  predicate Spells(word: seq<Byte>, name: seq<Byte>, module_: bool) {
    word == if module_ then Ascii("CONFIG_") + name + Ascii("_MODULE") else Ascii("CONFIG_") + name
  }

  /** The option written at p, up to the end of the run of name characters; a _MODULE at that end is
      never part of the name, not even when it begins with the last character of CONFIG_. */
  ghost predicate Mentions(s: seq<Byte>, p: nat, name: seq<Byte>) {
    && p + 7 <= |s| && s[p..p + 7] == Ascii("CONFIG_")
    && exists q: nat :: RunEnds(s, p + 7, q) && Spells(s[p..q], name, EndsWith(s[..q], Ascii("_MODULE")))
  }

  lemma Literals()
    ensures Ascii("CONFIG_") == PREFIX && Ascii("_MODULE") == MODULE_SUFFIX
  {
  }

  lemma SpellsIs(s: seq<Byte>, p: nat, q: nat, name: seq<Byte>)
    requires PrefixAt(s, p) && p + 7 <= q < |s|
    ensures Spells(s[p..q], name, false) <==> s[p + 7..q] == name
    ensures s[q - 7..q] == MODULE_SUFFIX ==> (Spells(s[p..q], name, true) <==> p + 14 <= q && s[p + 7..q - 7] == name)
    ensures EndsWith(s[..q], Ascii("_MODULE")) <==> s[q - 7..q] == MODULE_SUFFIX
  {
    assert s[..q][q - 7..] == s[q - 7..q];
    Literals();
    hide Ascii, EndsWith;
    SpellsWhole(s, p, q, name);
    if s[q - 7..q] == MODULE_SUFFIX { SpellsModule(s, p, q, name); }
  }

  lemma CancelFront(x: seq<Byte>, a: seq<Byte>, b: seq<Byte>)
    ensures x + a == x + b <==> a == b
  {
    if x + a == x + b { assert (x + a)[|x|..] == a && (x + b)[|x|..] == b; }
  }

  lemma EndingIs(mid: seq<Byte>, name: seq<Byte>, end: seq<Byte>)
    requires |end| <= |mid| ==> mid[|mid| - |end|..] == end
    ensures mid == name + end <==> |end| <= |mid| && mid[..|mid| - |end|] == name
  {
    if |end| <= |mid| { assert mid == mid[..|mid| - |end|] + end; }
    if mid == name + end { assert mid[..|mid| - |end|] == name; }
  }

  lemma SpellsWhole(s: seq<Byte>, p: nat, q: nat, name: seq<Byte>)
    requires PrefixAt(s, p) && p + 7 <= q < |s|
    ensures Spells(s[p..q], name, false) <==> s[p + 7..q] == name
  {
    Literals();
    assert s[p..q] == PREFIX + s[p + 7..q];
    hide Ascii;
    CancelFront(PREFIX, s[p + 7..q], name);
  }

  lemma SpellsModule(s: seq<Byte>, p: nat, q: nat, name: seq<Byte>)
    requires PrefixAt(s, p) && p + 7 <= q < |s| && s[q - 7..q] == MODULE_SUFFIX
    ensures Spells(s[p..q], name, true) <==> p + 14 <= q && s[p + 7..q - 7] == name
  {
    Literals();
    var mid := s[p + 7..q];
    assert s[p..q] == PREFIX + mid;
    assert PREFIX + name + MODULE_SUFFIX == PREFIX + (name + MODULE_SUFFIX);
    if p + 14 <= q { assert mid[|mid| - 7..] == s[q - 7..q] && mid[..|mid| - 7] == s[p + 7..q - 7]; }
    hide Ascii;
    CancelFront(PREFIX, mid, name + MODULE_SUFFIX);
    EndingIs(mid, name, MODULE_SUFFIX);
  }

  lemma MentionEnds(s: seq<Byte>, p: nat, name: seq<Byte>)
    requires PrefixAt(s, p)
    ensures var q := NameEnd(s, p + 7);
      Mentions(s, p, name) <==> q < |s| && Spells(s[p..q], name, EndsWith(s[..q], Ascii("_MODULE")))
  {
    Literals();
    RunsAre(s, p + 7);
    hide Spells, EndsWith, NameEnd, RunEnds, Ascii;
    var q := NameEnd(s, p + 7);
    assert q < |s| ==> RunEnds(s, p + 7, q);
  }

  lemma OptionEnds(s: seq<Byte>, p: nat, name: seq<Byte>)
    requires PrefixAt(s, p)
    ensures var q := NameEnd(s, p + 7);
      OptionAt(s, p) == [name] <==> q < |s| && Spells(s[p..q], name, s[q - 7..q] == MODULE_SUFFIX)
  {
    var q := NameEnd(s, p + 7);
    if q < |s| { SpellsIs(s, p, q, name); }
    hide Spells, NameEnd, PrefixAt;
    OptionCases(s, p);
  }

  lemma OptionCases(s: seq<Byte>, p: nat)
    requires PrefixAt(s, p)
    ensures var q := NameEnd(s, p + 7);
      OptionAt(s, p) ==
        if q == |s| then []
        else if s[q - 7..q] == MODULE_SUFFIX then if q - 7 < p + 7 then [] else [s[p + 7..q - 7]]
        else [s[p + 7..q]]
  {
  }

  /** The option found at a place is the one written there, and there is none where none is. */
  lemma OptionIsMentioned(s: seq<Byte>, p: nat, name: seq<Byte>)
    ensures Mentions(s, p, name) <==> PrefixAt(s, p) && OptionAt(s, p) == [name]
  {
    MentionsPrefix(s, p, name);
    hide Mentions, Spells, NameEnd, PrefixAt, OptionAt, Ascii, EndsWith;
    if PrefixAt(s, p) {
      var q := NameEnd(s, p + 7);
      MentionEnds(s, p, name);
      OptionEnds(s, p, name);
      if q < |s| { SpellsIs(s, p, q, name); }
    }
  }

  lemma MentionsPrefix(s: seq<Byte>, p: nat, name: seq<Byte>)
    ensures PrefixAt(s, p) ==> p + 7 <= |s|
    ensures Mentions(s, p, name) ==> PrefixAt(s, p)
  {
    Literals();
  }

  /** What a search of every byte from p on finds is what is written there. */
  lemma {:induction false} OptionsAreMentioned(s: seq<Byte>, p: nat, name: seq<Byte>)
    ensures name in Options(s, p) <==> exists i :: p <= i && Mentions(s, i, name)
    decreases |s| - p
  {
    OptionIsMentioned(s, p, name);
    hide Mentions, PrefixAt;
    if p < |s| {
      AtMostOne(s, p);
      OptionsAreMentioned(s, p + 1, name);
    } else {
      forall i | p <= i
        ensures !Mentions(s, i, name)
      {
        NoneBehind(s, i, name);
      }
    }
  }

  lemma NoneBehind(s: seq<Byte>, p: nat, name: seq<Byte>)
    requires p >= |s|
    ensures !Mentions(s, p, name)
  {
  }

  lemma AtMostOne(s: seq<Byte>, p: nat)
    ensures PrefixAt(s, p) ==> |OptionAt(s, p)| <= 1
  {
  }

  /** The file that stands for an option: a slash for each `_`, small letters for capitals, and all
      other characters as they are. */
  lemma {:induction false} PathIs(name: Name, k: nat)
    requires k < |name|
    ensures |Path(name)| == |name|
    ensures var c := name[k] as char;
      Path(name)[k] as char == if c == '_' then '/' else if 'A' <= c <= 'Z' then c - 'A' + 'a' else c
  {
    var n := |name| - 1;
    if k < n {
      PathIs(name[..n], k);
    } else if n > 0 {
      PathIs(name[..n], 0);
    }
    OneCharacter(name[k]);
  }

  lemma OneCharacter(b: Byte)
    ensures var c := b as char;
      (if b == 95 then 47 else if 65 <= b <= 90 then b + 32 else b) as char
      == if c == '_' then '/' else if 'A' <= c <= 'Z' then c - 'A' + 'a' else c
  {
  }
}
