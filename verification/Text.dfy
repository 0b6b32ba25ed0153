/** Strings as the server handles them. Letters are folded, and white space is recognised, as in ASCII. */
module Text {
  import opened Common

  function Upper(c: char): char {
    if 'a' <= c <= 'z' then c - 'a' + 'A' else c
  }

  function ToUpper(s: string): (r: string)
    ensures |r| == |s| && forall i :: 0 <= i < |s| ==> r[i] == Upper(s[i])
  {
    if s == "" then "" else [Upper(s[0])] + ToUpper(s[1..])
  }

  predicate IsSpace(c: char) {
    c == ' ' || '\t' <= c <= '\r'
  }

  /** Index of the first occurrence of `c`, or the length. */
  function IndexByte(s: string, c: char): (i: nat)
    ensures i <= |s| && (i < |s| ==> s[i] == c) && c !in s[..i]
  {
    if s == "" || s[0] == c then 0 else 1 + IndexByte(s[1..], c)
  }

  /** Index of the first occurrence of `t` in `s`. */
  function Index(s: string, t: string): (i: Option<nat>)
    ensures i.Some? ==> i.value + |t| <= |s| && s[i.value..i.value + |t|] == t
  {
    if t <= s then Some(0)
    else if s == "" then None
    else match Index(s[1..], t)
         case None => None
         case Some(i) => Some(i + 1)
  }

  function TrimLeft(s: string): string {
    if s != "" && IsSpace(s[0]) then TrimLeft(s[1..]) else s
  }

  function TrimRight(s: string): string {
    if s != "" && IsSpace(s[|s| - 1]) then TrimRight(s[..|s| - 1]) else s
  }

  function TrimSpace(s: string): string {
    TrimRight(TrimLeft(s))
  }

  function Lower(c: char): char {
    if 'A' <= c <= 'Z' then c - 'A' + 'a' else c
  }

  function ToLower(s: string): string {
    seq(|s|, i requires 0 <= i < |s| => Lower(s[i]))
  }

  /** strings.ToLower(strings.TrimSpace(s)), the form in which addresses are compared. */
  function Normalize(s: string): string {
    ToLower(TrimSpace(s))
  }

  lemma {:induction false} IndexByteSkip(prefix: string, c: char, tail: string)
    requires c !in prefix
    ensures IndexByte(prefix + [c] + tail, c) == |prefix|
  {
    if prefix != "" {
      IndexByteSkip(prefix[1..], c, tail);
      assert (prefix + [c] + tail)[1..] == prefix[1..] + [c] + tail;
    }
  }

  // ---- Normal form ----

  lemma {:induction false} TrimLeftEnds(s: string)
    ensures var r := TrimLeft(s); |r| <= |s| && r == s[|s| - |r|..] && (r != "" ==> !IsSpace(r[0]))
  {
    if s != "" && IsSpace(s[0]) { TrimLeftEnds(s[1..]); }
  }

  lemma {:induction false} TrimRightEnds(s: string)
    ensures var r := TrimRight(s); r <= s && (r != "" ==> !IsSpace(r[|r| - 1]))
    decreases |s|
  {
    if s != "" && IsSpace(s[|s| - 1]) { TrimRightEnds(s[..|s| - 1]); }
  }

  /** A string without white space at its ends is left alone. */
  predicate Trimmed(s: string) {
    s == "" || (!IsSpace(s[0]) && !IsSpace(s[|s| - 1]))
  }

  lemma TrimSpaceTrims(s: string)
    ensures Trimmed(TrimSpace(s))
    ensures Trimmed(s) ==> TrimSpace(s) == s
  {
    TrimLeftEnds(s);
    TrimRightEnds(TrimLeft(s));
  }

  lemma LowerTwice(s: string)
    ensures ToLower(ToLower(s)) == ToLower(s) && (Trimmed(s) ==> Trimmed(ToLower(s)))
  {
  }

  lemma NormalizeTwice(s: string)
    ensures Normalize(Normalize(s)) == Normalize(s)
  {
    TrimSpaceTrims(s);
    LowerTwice(TrimSpace(s));
    TrimSpaceTrims(Normalize(s));
  }

  // ---- Spellings ----

  predicate IsUpper(c: char) {
    'A' <= c <= 'Z'
  }

  /** The same character, or the two cases of one letter: 'A' and 'a' are 32 apart. */
  predicate SameLetter(a: char, b: char) {
    || a == b
    || (IsUpper(a) && b as int == a as int + 32)
    || (IsUpper(b) && a as int == b as int + 32)
  }

  /** The same text up to the case of its letters. */
  predicate SameText(a: string, b: string) {
    |a| == |b| && forall i :: 0 <= i < |a| ==> SameLetter(a[i], b[i])
  }

  predicate Blank(s: string) {
    forall i :: 0 <= i < |s| ==> IsSpace(s[i])
  }

  /** `s` is `core` with white space around it. */
  ghost predicate Padded(s: string, core: string) {
    exists left, right :: Blank(left) && Blank(right) && s == left + core + right
  }

  /** Tab, line feed, vertical tab, form feed, carriage return and space. */
  lemma SpaceExactly(c: char)
    ensures IsSpace(c) <==> c as int in {9, 10, 11, 12, 13, 32}
  {
  }

  lemma LowerLetter(a: char, b: char)
    ensures !IsUpper(Lower(a)) && SameLetter(a, Lower(a)) && (SameLetter(a, b) <==> Lower(a) == Lower(b))
    ensures IsSpace(Lower(a)) <==> IsSpace(a)
  {
  }

  lemma LowerText(a: string, b: string)
    ensures SameText(a, ToLower(a)) && (forall i :: 0 <= i < |a| ==> !IsUpper(ToLower(a)[i]))
    ensures SameText(a, b) <==> ToLower(a) == ToLower(b)
  {
    forall i | 0 <= i < |a| ensures SameLetter(a[i], ToLower(a)[i]) && !IsUpper(ToLower(a)[i]) { LowerLetter(a[i], a[i]); }
    if |a| == |b| {
      forall i | 0 <= i < |a| ensures SameLetter(a[i], b[i]) <==> ToLower(a)[i] == ToLower(b)[i] { LowerLetter(a[i], b[i]); }
      assert ToLower(a) == ToLower(b) ==> forall i :: 0 <= i < |a| ==> ToLower(a)[i] == ToLower(b)[i];
    }
  }

  lemma UpperLetter(a: char, b: char)
    requires IsUpper(b)
    ensures Upper(a) == b <==> SameLetter(a, b)
  {
  }

  /** A text in capitals is what folding to upper case makes of all its spellings, and of nothing else. */
  lemma UpperText(a: string, verb: string)
    requires forall i :: 0 <= i < |verb| ==> IsUpper(verb[i])
    ensures ToUpper(a) == verb <==> SameText(a, verb)
  {
    if |a| == |verb| {
      forall i | 0 <= i < |a| ensures ToUpper(a)[i] == verb[i] <==> SameLetter(a[i], verb[i]) { UpperLetter(a[i], verb[i]); }
    }
  }

  lemma {:induction false} TrimLeftPads(s: string) returns (left: string)
    ensures Blank(left) && s == left + TrimLeft(s)
  {
    if s != "" && IsSpace(s[0]) {
      var rest := TrimLeftPads(s[1..]);
      left := [s[0]] + rest;
    } else {
      left := "";
    }
  }

  lemma {:induction false} TrimRightPads(s: string) returns (right: string)
    ensures Blank(right) && s == TrimRight(s) + right
    decreases |s|
  {
    if s != "" && IsSpace(s[|s| - 1]) {
      var rest := TrimRightPads(s[..|s| - 1]);
      right := rest + [s[|s| - 1]];
    } else {
      right := "";
    }
  }

  lemma {:induction false} TrimLeftOf(left: string, core: string)
    requires Blank(left)
    ensures TrimLeft(left + core) == TrimLeft(core)
  {
    if left == "" {
      assert left + core == core;
    } else {
      TrimLeftOf(left[1..], core);
      assert (left + core)[1..] == left[1..] + core;
    }
  }

  lemma {:induction false} TrimRightOf(core: string, right: string)
    requires Blank(right)
    ensures TrimRight(core + right) == TrimRight(core)
    decreases |right|
  {
    if right == "" {
      assert core + right == core;
    } else {
      TrimRightOf(core, right[..|right| - 1]);
      assert (core + right)[..|core + right| - 1] == core + right[..|right| - 1];
    }
  }

  lemma {:induction false} TrimLeftBlank(s: string)
    requires Blank(s)
    ensures TrimLeft(s) == ""
  {
    if s == "" {
    } else {
      TrimLeftBlank(s[1..]);
    }
  }

  /** Trimming takes off exactly the white space around a text that has none at its ends. */
  lemma TrimSpaceExactly(s: string, core: string)
    requires Trimmed(core)
    ensures TrimSpace(s) == core <==> Padded(s, core)
  {
    var left := TrimLeftPads(s);
    var right := TrimRightPads(TrimLeft(s));
    assert s == left + (TrimSpace(s) + right) == left + TrimSpace(s) + right;
    if Padded(s, core) {
      var l, r :| Blank(l) && Blank(r) && s == l + core + r;
      PaddedTrims(l, core, r);
    }
  }

  lemma PaddedTrims(left: string, core: string, right: string)
    requires Blank(left) && Blank(right) && Trimmed(core)
    ensures TrimSpace(left + core + right) == core
  {
    assert left + core + right == left + (core + right);
    TrimLeftOf(left, core + right);
    if core == "" {
      assert core + right == right;
      TrimLeftBlank(right);
    } else {
      assert (core + right)[0] == core[0];
      TrimRightOf(core, right);
    }
  }

  /** The normal form of an address, said without computing it: no capital letter, no white space at its ends, and the same
      text as the address up to the case of letters and white space around it. There is no other such string. */
  lemma NormalFormExactly(s: string, n: string)
    ensures Normalize(s) == n <==>
              (&& Trimmed(n) && (forall i :: 0 <= i < |n| ==> !IsUpper(n[i]))
               && exists core :: Padded(s, core) && SameText(core, n))
  {
    var t := TrimSpace(s);
    TrimSpaceTrims(s);
    TrimSpaceExactly(s, t);
    LowerText(t, n);
    LowerTwice(t);
    if Trimmed(n) && (forall i :: 0 <= i < |n| ==> !IsUpper(n[i])) && exists core :: Padded(s, core) && SameText(core, n) {
      var core :| Padded(s, core) && SameText(core, n);
      SameEnds(core, n);
      TrimSpaceExactly(s, core);
      LowerText(core, n);
      NoCapitals(n);
    }
  }

  lemma SameEnds(a: string, b: string)
    requires SameText(a, b)
    ensures Trimmed(a) <==> Trimmed(b)
  {
    if a != "" {
      SameSpace(a[0], b[0]);
      SameSpace(a[|a| - 1], b[|b| - 1]);
    }
  }

  lemma SameSpace(a: char, b: char)
    requires SameLetter(a, b)
    ensures IsSpace(a) <==> IsSpace(b)
  {
  }

  lemma NoCapitals(s: string)
    requires forall i :: 0 <= i < |s| ==> !IsUpper(s[i])
    ensures ToLower(s) == s
  {
  }

  /** Two spellings of one address: the same text up to the case of letters and white space around it. */
  ghost predicate SameAddress(a: string, b: string) {
    exists x, y :: Trimmed(x) && Padded(a, x) && Padded(b, y) && SameText(x, y)
  }

  /** Spellings of one address, and only those, have one normal form. */
  lemma SameAddressExactly(a: string, b: string)
    ensures Normalize(a) == Normalize(b) <==> SameAddress(a, b)
  {
    var x, y := TrimSpace(a), TrimSpace(b);
    TrimSpaceTrims(a);
    TrimSpaceTrims(b);
    TrimSpaceExactly(a, x);
    TrimSpaceExactly(b, y);
    LowerText(x, y);
    if SameAddress(a, b) {
      var u, v :| Trimmed(u) && Padded(a, u) && Padded(b, v) && SameText(u, v);
      SameEnds(u, v);
      TrimSpaceExactly(a, u);
      TrimSpaceExactly(b, v);
    }
  }

  // ---- Finding text ----

  /** The first occurrence is found, and none only when there is none. */
  lemma {:induction false} IndexFirst(s: string, t: string, k: nat)
    requires k + |t| <= |s| && s[k..k + |t|] == t
    ensures Index(s, t).Some? && Index(s, t).value <= k
    decreases |s|
  {
    if k == 0 {
      assert s[..|t|] == t;
    } else if !(t <= s) {
      assert s[1..][k - 1..k - 1 + |t|] == s[k..k + |t|];
      IndexFirst(s[1..], t, k - 1);
    }
  }
}
