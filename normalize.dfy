/** `normalizeStr(s)` of frontend/public/app.js: lower-case, canonical
    decomposition (NFD), removal of the combining diacritical marks
    U+0300–U+036F, then `trim()`. Lower-casing covers the ASCII and Latin-1
    capitals; decomposition covers the precomposed Latin-1 letters (the
    accented letters of Spanish among them). */
module Normalize {
  import opened Js

  /** A capital letter `toLowerCase` maps in this model: A–Z and
      U+00C0–U+00DE except the multiplication sign U+00D7. */
  predicate IsUpper(c: char)
  {
    ('A' <= c <= 'Z') || ('\U{00C0}' <= c <= '\U{00DE}' && c != '\U{00D7}')
  }

  predicate IsCombiningMark(c: char) { '\U{0300}' <= c <= '\U{036F}' }

  function LowerChar(c: char): (r: char)
    ensures !IsUpper(r)
    ensures !IsUpper(c) ==> r == c
  {
    if IsUpper(c) then (c as int + 0x20) as char else c
  }

  /** Canonical decomposition of the precomposed lower-case Latin-1 letters
      into a base letter followed by one combining mark; every other
      character is its own decomposition. */
  function Decompose(c: char): (r: seq<char>)
    ensures r == [c] || (|r| == 2 && 'a' <= r[0] <= 'z' && IsCombiningMark(r[1]))
    ensures !('\U{00E0}' <= c <= '\U{00FF}') ==> r == [c]
  {
    match c
    case '\U{00E0}' => ['a', '\U{0300}']
    case '\U{00E1}' => ['a', '\U{0301}']
    case '\U{00E2}' => ['a', '\U{0302}']
    case '\U{00E3}' => ['a', '\U{0303}']
    case '\U{00E4}' => ['a', '\U{0308}']
    case '\U{00E5}' => ['a', '\U{030A}']
    case '\U{00E7}' => ['c', '\U{0327}']
    case '\U{00E8}' => ['e', '\U{0300}']
    case '\U{00E9}' => ['e', '\U{0301}']
    case '\U{00EA}' => ['e', '\U{0302}']
    case '\U{00EB}' => ['e', '\U{0308}']
    case '\U{00EC}' => ['i', '\U{0300}']
    case '\U{00ED}' => ['i', '\U{0301}']
    case '\U{00EE}' => ['i', '\U{0302}']
    case '\U{00EF}' => ['i', '\U{0308}']
    case '\U{00F1}' => ['n', '\U{0303}']
    case '\U{00F2}' => ['o', '\U{0300}']
    case '\U{00F3}' => ['o', '\U{0301}']
    case '\U{00F4}' => ['o', '\U{0302}']
    case '\U{00F5}' => ['o', '\U{0303}']
    case '\U{00F6}' => ['o', '\U{0308}']
    case '\U{00F9}' => ['u', '\U{0300}']
    case '\U{00FA}' => ['u', '\U{0301}']
    case '\U{00FB}' => ['u', '\U{0302}']
    case '\U{00FC}' => ['u', '\U{0308}']
    case '\U{00FD}' => ['y', '\U{0301}']
    case '\U{00FF}' => ['y', '\U{0308}']
    case _ => [c]
  }

  /** A character every stage of the normaliser leaves alone. */
  predicate IsNormalChar(c: char)
  {
    !IsUpper(c) && !IsCombiningMark(c) && Decompose(c) == [c]
  }

  /** The characters a decomposition produces are never capitals and
      decompose to themselves. */
  lemma DecomposeIsFinal(c: char)
    requires !IsUpper(c)
    ensures forall d :: d in Decompose(c) ==> !IsUpper(d) && Decompose(d) == [d]
  {
    var r := Decompose(c);
    if r != [c] {
      assert Decompose(r[0]) == [r[0]];
      assert Decompose(r[1]) == [r[1]];
    }
  }

  function Lower(s: string): string
  {
    if s == [] then [] else [LowerChar(s[0])] + Lower(s[1..])
  }

  lemma {:induction false} LowerChars(s: string)
    ensures |Lower(s)| == |s|
    ensures forall i :: 0 <= i < |s| ==> Lower(s)[i] == LowerChar(s[i])
  {
    if s != [] {
      LowerChars(s[1..]);
    }
  }

  /** Lower-casing leaves no capital behind and keeps every other character. */
  lemma LowerHasNoCapital(s: string)
    ensures forall c :: c in Lower(s) ==> !IsUpper(c)
    ensures (forall c :: c in s ==> !IsUpper(c)) ==> Lower(s) == s
  {
    LowerChars(s);
    if forall c :: c in s ==> !IsUpper(c) {
      forall i | 0 <= i < |s| ensures Lower(s)[i] == s[i] {
        assert s[i] in s;
      }
    }
  }

  function Nfd(s: string): string
  {
    if s == [] then [] else Decompose(s[0]) + Nfd(s[1..])
  }

  /** Decomposing a string without capitals leaves characters that are not
      capitals and need no further decomposition. */
  lemma {:induction false} NfdIsFinal(s: string)
    requires forall c :: c in s ==> !IsUpper(c)
    ensures forall d :: d in Nfd(s) ==> !IsUpper(d) && Decompose(d) == [d]
  {
    if s != [] {
      assert s[0] in s;
      DecomposeIsFinal(s[0]);
      NfdIsFinal(s[1..]);
    }
  }

  /** `.replace(/[\u0300-\u036f]/g, "")` */
  function StripMarks(s: string): string
  {
    if s == [] then []
    else if IsCombiningMark(s[0]) then StripMarks(s[1..])
    else [s[0]] + StripMarks(s[1..])
  }

  /** `StripMarks` keeps exactly the characters that are not marks. */
  lemma {:induction false} StripMarksSpec(s: string)
    ensures forall c :: c in StripMarks(s) <==> c in s && !IsCombiningMark(c)
  {
    if s != [] {
      StripMarksSpec(s[1..]);
      assert forall c :: c in s <==> c == s[0] || c in s[1..];
    }
  }

  /** `normalizeStr`: the token compared by the route matcher. */
  function NormalizeStr(s: string): string
  {
    Trim(StripMarks(Nfd(Lower(s))))
  }

  /** A token carries no surrounding white space, and every character of it
      is one the normaliser leaves alone: no capital letter, no combining
      mark and no precomposed letter the model decomposes. */
  lemma NormalizeStrIsFinal(s: string)
    ensures IsTrimmed(NormalizeStr(s))
    ensures forall c :: c in NormalizeStr(s) ==> IsNormalChar(c)
  {
    var u := StripMarks(Nfd(Lower(s)));
    LowerHasNoCapital(s);
    NfdIsFinal(Lower(s));
    StripMarksSpec(Nfd(Lower(s)));
    TrimSpec(u);
  }

  lemma {:induction false} NfdOfNormal(s: string)
    requires forall c :: c in s ==> IsNormalChar(c)
    ensures Nfd(s) == s
  {
    if s != [] {
      assert s[0] in s;
      NfdOfNormal(s[1..]);
      assert s == [s[0]] + s[1..];
    }
  }

  lemma {:induction false} StripMarksOfNormal(s: string)
    requires forall c :: c in s ==> !IsCombiningMark(c)
    ensures StripMarks(s) == s
  {
    if s != [] {
      assert s[0] in s;
      StripMarksOfNormal(s[1..]);
      assert s == [s[0]] + s[1..];
    }
  }

  /** Normalising a token a second time changes nothing. */
  lemma NormalizeIdempotent(s: string)
    ensures NormalizeStr(NormalizeStr(s)) == NormalizeStr(s)
  {
    var t := NormalizeStr(s);
    NormalizeStrIsFinal(s);
    LowerHasNoCapital(t);
    NfdOfNormal(t);
    StripMarksOfNormal(t);
    TrimOfTrimmed(t);
    calc {
      NormalizeStr(t);
      Trim(StripMarks(Nfd(Lower(t))));
      Trim(StripMarks(Nfd(t)));
      Trim(StripMarks(t));
      Trim(t);
      t;
    }
  }

  /** Lower-case ASCII letters, digits, the space and `#`. */
  predicate IsPlainChar(c: char)
  {
    ('a' <= c <= 'z') || ('0' <= c <= '9') || c == ' ' || c == '#'
  }

  /** A trimmed string of plain characters is its own token. */
  lemma NormalizeOfPlain(s: string)
    requires IsTrimmed(s) && forall c :: c in s ==> IsPlainChar(c)
    ensures NormalizeStr(s) == s
  {
    forall c | c in s ensures IsNormalChar(c) {
      assert IsPlainChar(c);
    }
    LowerHasNoCapital(s);
    NfdOfNormal(s);
    StripMarksOfNormal(s);
    TrimOfTrimmed(s);
  }

  lemma NormalizeEmpty()
    ensures NormalizeStr("") == ""
  {
  }

  /** A string made only of white space and combining marks normalises to the
      empty token; in particular the empty string does. */
  lemma {:induction false} NormalizeBlank(s: string)
    requires forall c :: c in s ==> IsJsSpace(c) || IsCombiningMark(c)
    ensures NormalizeStr(s) == ""
  {
    LowerHasNoCapital(s);
    NfdBlank(s);
    StripMarksSpec(s);
    TrimOfSpace(StripMarks(s));
  }

  lemma {:induction false} NfdBlank(s: string)
    requires forall c :: c in s ==> IsJsSpace(c) || IsCombiningMark(c)
    ensures Nfd(s) == s
  {
    if s != [] {
      assert s[0] in s;
      NfdBlank(s[1..]);
      assert s == [s[0]] + s[1..];
    }
  }
}
