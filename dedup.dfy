/**
 * The identity of a store: `make_dedup_key` and `make_dedup_key_from_store`
 * (scraper.py, lines 23-31). Each of name and address is lower-cased, every
 * character outside a-z and 0-9 is dropped, and the two are joined by "|".
 */
module Dedup {
  import opened Wrappers
  import opened Text
  import opened Stores

  /** The characters the regular expression `[^a-z0-9]` leaves in place. */
  predicate IsKeyChar(c: char) {
    IsAsciiLower(c) || IsDigit(c)
  }

  predicate IsKeyString(s: string) {
    forall i :: 0 <= i < |s| ==> IsKeyChar(s[i])
  }

  /** The characters that contribute nothing to a key, whatever their case. */
  predicate IsIgnored(c: char) {
    !IsAsciiLetter(c) && !IsDigit(c) && c != KelvinSign && c != CapitalIWithDot
  }

  /** `re.sub(r'[^a-z0-9]', '', s)` */
  function KeepKeyChars(s: string): (r: string)
    ensures IsKeyString(r)
  {
    if s == [] then [] else (if IsKeyChar(s[0]) then [s[0]] else []) + KeepKeyChars(s[1..])
  }

  /** One component of a key: `re.sub(r'[^a-z0-9]', '', s.lower())`. */
  function Normalise(s: string): (r: string)
    ensures IsKeyString(r)
  {
    KeepKeyChars(Lower(s))
  }

  /** The key of a name and an address, either of which may be `None`. */
  function MakeDedupKey(name: Option<string>, address: Option<string>): string {
    Normalise(name.GetOr("")) + "|" + Normalise(address.GetOr(""))
  }

  /** The key of a store record: the empty key exactly when neither its name nor its
      address has a letter or digit. */
  function StoreKey(s: Store): (r: string)
    ensures r == EmptyKey <==> Normalise(s.name) == [] && Normalise(s.address) == []
  {
    EmptyKeyIffNothingKept(Some(s.name), Some(s.address));
    MakeDedupKey(Some(s.name), Some(s.address))
  }

  /** The key of a record with neither a usable name nor a usable address. */
  const EmptyKey: string := "|"

  lemma {:induction false} KeepKeyCharsAppend(a: string, b: string)
    ensures KeepKeyChars(a + b) == KeepKeyChars(a) + KeepKeyChars(b)
  {
    if a == [] {
      assert a + b == b;
    } else {
      assert (a + b)[0] == a[0] && (a + b)[1..] == a[1..] + b;
      KeepKeyCharsAppend(a[1..], b);
    }
  }

  /** Normalising works character by character. */
  lemma NormaliseAppend(a: string, b: string)
    ensures Normalise(a + b) == Normalise(a) + Normalise(b)
  {
    LowerAppend(a, b);
    KeepKeyCharsAppend(Lower(a), Lower(b));
  }

  /** What one character contributes to a key. */
  lemma NormaliseChar(c: char)
    ensures IsKeyChar(c) ==> Normalise([c]) == [c]
    ensures IsAsciiUpper(c) ==> Normalise([c]) == [(c as int + 32) as char]
    ensures c == KelvinSign ==> Normalise([c]) == "k"
    ensures c == CapitalIWithDot ==> Normalise([c]) == "i"
    ensures IsIgnored(c) <==> Normalise([c]) == []
  {
    assert [c][1..] == [];
    assert Lower([c]) == LowerChar(c) + Lower([]);
    if c == CapitalIWithDot {
      var dotted := "i\U{0307}";
      assert LowerChar(c) == dotted;
      assert dotted[1..] == "\U{0307}" && "\U{0307}"[1..] == [];
      assert KeepKeyChars("\U{0307}") == [];
      assert KeepKeyChars(dotted) == "i";
      assert Lower([c]) == dotted + [] == dotted;
    }
  }

  /** A string made of key characters is left as it is. */
  lemma {:induction false} NormaliseKeyString(s: string)
    requires IsKeyString(s)
    ensures Normalise(s) == s
  {
    if s != [] {
      NormaliseKeyString(s[1..]);
      NormaliseChar(s[0]);
      NormaliseAppend([s[0]], s[1..]);
      assert [s[0]] + s[1..] == s;
    }
  }

  /** Normalising twice is normalising once. */
  lemma NormaliseIdempotent(s: string)
    ensures Normalise(Normalise(s)) == Normalise(s)
  {
    NormaliseKeyString(Normalise(s));
  }

  /** ASCII case folding of one character. */
  function FoldCase(c: char): char {
    if IsAsciiUpper(c) then (c as int + 32) as char else c
  }

  /** Strings equal up to the case of ASCII letters have the same key component. */
  lemma {:induction false} NormaliseIgnoresCase(s: string, t: string)
    requires |s| == |t|
    requires forall i :: 0 <= i < |s| ==> FoldCase(s[i]) == FoldCase(t[i])
    ensures Normalise(s) == Normalise(t)
  {
    if s != [] {
      NormaliseIgnoresCase(s[1..], t[1..]);
      NormaliseChar(s[0]);
      NormaliseChar(t[0]);
      NormaliseAppend([s[0]], s[1..]);
      NormaliseAppend([t[0]], t[1..]);
      assert [s[0]] + s[1..] == s && [t[0]] + t[1..] == t;
    }
  }

  /** A run of ignored characters (white space, punctuation, accented letters)
      normalises to nothing. */
  lemma {:induction false} NormaliseIgnoredRun(t: string)
    requires forall i :: 0 <= i < |t| ==> IsIgnored(t[i])
    ensures Normalise(t) == []
  {
    if t != [] {
      NormaliseIgnoredRun(t[1..]);
      NormaliseChar(t[0]);
      NormaliseAppend([t[0]], t[1..]);
      assert [t[0]] + t[1..] == t;
    }
  }

  /** Inserting ignored characters anywhere leaves the key component unchanged. */
  lemma NormaliseSkipsIgnored(a: string, t: string, b: string)
    requires forall i :: 0 <= i < |t| ==> IsIgnored(t[i])
    ensures Normalise(a + t + b) == Normalise(a + b)
  {
    NormaliseIgnoredRun(t);
    NormaliseAppend(a + t, b);
    NormaliseAppend(a, t);
    NormaliseAppend(a, b);
  }

  /** The position of the first "|" in `s`, or |s| when there is none. */
  function SeparatorIndex(s: string): (i: nat)
    ensures i <= |s|
  {
    if s == [] || s[0] == '|' then 0 else 1 + SeparatorIndex(s[1..])
  }

  lemma {:induction false} SeparatorAfterComponent(p: string, q: string)
    requires IsKeyString(p)
    ensures SeparatorIndex(p + "|" + q) == |p|
  {
    if p != [] {
      assert (p + "|" + q)[1..] == p[1..] + "|" + q;
      SeparatorAfterComponent(p[1..], q);
    }
  }

  /** A key splits at its first "|" back into the two normalised parts, a missing part
      counting as "". */
  lemma DedupKeySplits(name: Option<string>, address: Option<string>)
    ensures var key := MakeDedupKey(name, address);
      && SeparatorIndex(key) < |key| && key[SeparatorIndex(key)] == '|'
      && key[..SeparatorIndex(key)] == Normalise(name.GetOr(""))
      && key[SeparatorIndex(key) + 1..] == Normalise(address.GetOr(""))
  {
    SeparatorAfterComponent(Normalise(name.GetOr("")), Normalise(address.GetOr("")));
  }

  /** Splitting a key at its separator: the separator is never part of a component. */
  lemma SplitAtSeparator(p1: string, q1: string, p2: string, q2: string)
    requires IsKeyString(p1) && IsKeyString(p2)
    requires p1 + "|" + q1 == p2 + "|" + q2
    ensures p1 == p2 && q1 == q2
  {
    var k := p1 + "|" + q1;
    SeparatorAfterComponent(p1, q1);
    SeparatorAfterComponent(p2, q2);
    assert p1 == k[..|p1|] && p2 == k[..|p2|];
    assert q1 == k[|p1| + 1..] && q2 == k[|p2| + 1..];
  }

  /** Two keys are equal exactly when both components normalise equally. */
  lemma DedupKeyEqual(n1: Option<string>, a1: Option<string>, n2: Option<string>, a2: Option<string>)
    ensures MakeDedupKey(n1, a1) == MakeDedupKey(n2, a2)
        <==> Normalise(n1.GetOr("")) == Normalise(n2.GetOr("")) && Normalise(a1.GetOr("")) == Normalise(a2.GetOr(""))
  {
    if MakeDedupKey(n1, a1) == MakeDedupKey(n2, a2) {
      SplitAtSeparator(Normalise(n1.GetOr("")), Normalise(a1.GetOr("")), Normalise(n2.GetOr("")), Normalise(a2.GetOr("")));
    }
  }

  /** The key is the bare separator exactly when neither part contributes anything. */
  lemma EmptyKeyIffNothingKept(name: Option<string>, address: Option<string>)
    ensures MakeDedupKey(name, address) == EmptyKey
        <==> Normalise(name.GetOr("")) == [] && Normalise(address.GetOr("")) == []
  {
    DedupKeyEqual(name, address, Some(""), Some(""));
    assert MakeDedupKey(Some(""), Some("")) == EmptyKey;
  }

  /** An already-normalised key component gives the same key again. */
  lemma DedupKeyOfNormalised(name: string, address: string)
    ensures MakeDedupKey(Some(Normalise(name)), Some(Normalise(address))) == MakeDedupKey(Some(name), Some(address))
  {
    NormaliseIdempotent(name);
    NormaliseIdempotent(address);
  }

  /** The listing "ACME STORE" at "1 Main St" is the store "Acme Store" at "1 Main St". */
  lemma AcmeKeysCollide()
    ensures MakeDedupKey(Some("ACME STORE"), Some("1 Main St")) == MakeDedupKey(Some("Acme Store"), Some("1 Main St"))
  {
    var s, t := "ACME STORE", "Acme Store";
    forall i | 0 <= i < |s|
      ensures FoldCase(s[i]) == FoldCase(t[i])
    {
    }
    NormaliseIgnoresCase(s, t);
  }

  /** "Joe's Caf" and "JOES CAF" differ only in case and an apostrophe. */
  lemma JoesStemsAgree()
    ensures Normalise("Joe's Caf") == Normalise("JOES CAF")
  {
    var a, b, stem2 := "Joe", "s Caf", "JOES CAF";
    assert a + "'" + b == "Joe's Caf";
    NormaliseSkipsIgnored(a, "'", b);
    var joined := a + b;
    assert joined == "Joes Caf";
    forall i | 0 <= i < 8
      ensures FoldCase(joined[i]) == FoldCase(stem2[i])
    {
    }
    NormaliseIgnoresCase(joined, stem2);
  }

  /** An accented letter is dropped, not folded, so "Joe's Café" and
      "JOES CAFE" at the same address get different keys. */
  lemma CafeLosesAccent(address: Option<string>)
    ensures MakeDedupKey(Some("Joe's Café"), address) != MakeDedupKey(Some("JOES CAFE"), address)
  {
    var stem1, stem2 := "Joe's Caf", "JOES CAF";
    var name1, name2 := stem1 + "é", stem2 + "E";
    assert name1 == "Joe's Café" && name2 == "JOES CAFE";
    JoesStemsAgree();
    NormaliseChar('é');
    NormaliseChar('E');
    NormaliseAppend(stem1, "é");
    NormaliseAppend(stem2, "E");
    assert |Normalise(name1)| < |Normalise(name2)|;
    DedupKeyEqual(Some(name1), address, Some(name2), address);
  }
}
