/** The free-text answer normaliser: lower-case, trim, collapse every whitespace run to
    one space, then delete every `.`, `?`, `!` and `,`. */
module TextNormalizer {

  /** The characters ECMAScript counts as white space or line terminators: the set that
      both `String.prototype.trim` and the regular-expression class `\s` use. */
  predicate IsSpace(c: char) {
    var n := c as int;
    n == 0x09 || n == 0x0A || n == 0x0B || n == 0x0C || n == 0x0D || n == 0x20 ||
    n == 0xA0 || n == 0x1680 || (0x2000 <= n <= 0x200A) || n == 0x2028 || n == 0x2029 ||
    n == 0x202F || n == 0x205F || n == 0x3000 || n == 0xFEFF
  }

  /** The characters the final replacement deletes. */
  predicate IsPunct(c: char) {
    c == '.' || c == '?' || c == '!' || c == ','
  }

  predicate IsUpper(c: char) {
    'A' <= c <= 'Z'
  }

  function LowerChar(c: char): (r: char)
    ensures !IsUpper(r)
    ensures IsUpper(c) ==> r as int == c as int + 32
    ensures !IsUpper(c) ==> r == c
  {
    if IsUpper(c) then (c as int + 32) as char else c
  }

  predicate AllSpace(s: string) {
    forall i :: 0 <= i < |s| ==> IsSpace(s[i])
  }

  predicate NoPunct(s: string) {
    forall i :: 0 <= i < |s| ==> !IsPunct(s[i])
  }

  predicate NoUpper(s: string) {
    forall i :: 0 <= i < |s| ==> !IsUpper(s[i])
  }

  /** Every white-space character is a plain space. */
  predicate PlainSpaces(s: string) {
    forall i :: 0 <= i < |s| && IsSpace(s[i]) ==> s[i] == ' '
  }

  /** Every white-space character is a plain space and no two spaces are adjacent. */
  ghost predicate Collapsed(s: string) {
    && PlainSpaces(s)
    && (forall i, j :: 0 <= i < j < |s| && j == i + 1 ==> !(IsSpace(s[i]) && IsSpace(s[j])))
  }

  /** Neither end is white space. */
  predicate Trimmed(s: string) {
    s == [] || (!IsSpace(s[0]) && !IsSpace(s[|s| - 1]))
  }

  /** `toLowerCase`, restricted to the ASCII letters. */
  function Lower(s: string): (r: string)
    ensures |r| == |s|
    ensures forall i :: 0 <= i < |s| ==> r[i] == LowerChar(s[i])
    ensures NoUpper(r)
  {
    if s == [] then [] else [LowerChar(s[0])] + Lower(s[1..])
  }

  /** Drops the leading white space. */
  function TrimStart(s: string): (r: string)
    ensures |r| <= |s| && r == s[|s| - |r|..]
    ensures AllSpace(s[..|s| - |r|])
    ensures r == [] || !IsSpace(r[0])
  {
    if s != [] && IsSpace(s[0]) then
      var r := TrimStart(s[1..]);
      TrimStartStep(s, r);
      r
    else
      assert s[..0] == [];
      s
  }

  /** One step of `TrimStart`: a white-space head joins the run cut before the rest. */
  lemma {:induction false} TrimStartStep(s: string, r: string)
    requires s != [] && IsSpace(s[0])
    requires |r| <= |s[1..]| && r == s[1..][|s[1..]| - |r|..] && AllSpace(s[1..][..|s[1..]| - |r|])
    ensures |r| <= |s| && r == s[|s| - |r|..] && AllSpace(s[..|s| - |r|])
  {
    var k := |s| - |r|;
    assert s[1..][..k - 1] == s[1..k];
    assert forall i :: 1 <= i < k ==> s[i] == s[1..k][i - 1];
  }

  /** Drops the trailing white space. */
  function TrimEnd(s: string): (r: string)
    ensures |r| <= |s| && r == s[..|r|]
    ensures AllSpace(s[|r|..])
    ensures r == [] || !IsSpace(r[|r| - 1])
  {
    if s != [] && IsSpace(s[|s| - 1]) then TrimEnd(s[..|s| - 1]) else s
  }

  /** `trim`: the longest slice with no white space at either end. */
  function Trim(s: string): (r: string)
    ensures Trimmed(r)
    ensures exists i, j :: 0 <= i <= j <= |s| && r == s[i..j] && AllSpace(s[..i]) && AllSpace(s[j..])
  {
    var t := TrimStart(s);
    var r := TrimEnd(t);
    SliceOfSuffix(s, |s| - |t|, |r|);
    r
  }

  lemma {:induction false} SliceOfSuffix(s: string, i: nat, k: nat)
    requires i + k <= |s|
    ensures s[i..][..k] == s[i..i + k] && s[i..][k..] == s[i + k..]
  {
  }

  /** The characters of `s` that are not white space, in order. */
  function NonSpace(s: string): (r: string)
    ensures |r| <= |s|
  {
    if s == [] then [] else (if IsSpace(s[0]) then [] else [s[0]]) + NonSpace(s[1..])
  }

  /** `replace(/\s+/g, ' ')`: every maximal white-space run becomes a single space. */
  function Collapse(s: string): (r: string)
    ensures s == [] <==> r == []
    ensures s != [] ==> (if IsSpace(s[0]) then r[0] == ' ' else r[0] == s[0])
    decreases |s|
  {
    if s == [] then []
    else if IsSpace(s[0]) then [' '] + Collapse(TrimStart(s[1..]))
    else [s[0]] + Collapse(s[1..])
  }

  /** `replace(/[.?!,]/g, '')`. */
  function Strip(s: string): (r: string)
    ensures NoPunct(r)
    ensures |r| <= |s|
    ensures forall i :: 0 <= i < |r| ==> r[i] in s
    ensures NoPunct(s) ==> r == s
  {
    if s == [] then [] else (if IsPunct(s[0]) then [] else [s[0]]) + Strip(s[1..])
  }

  /** The normaliser used to compare free-text answers. */
  function Normalize(s: string): (r: string)
    ensures NoPunct(r)
  {
    Strip(Collapse(Trim(Lower(s))))
  }

  // ---------------------------------------------------------------------------
  // What the normaliser produces

  /** A normalised string has no `.?!,`, no upper-case letter, and no white space other
      than single plain spaces. */
  lemma {:induction false} NormalizeShape(s: string)
    ensures NoPunct(Normalize(s)) && NoUpper(Normalize(s))
    ensures PlainSpaces(Normalize(s))
  {
    var t := Trim(Lower(s));
    TrimKeepsNoUpper(Lower(s));
    CollapseKeepsNoUpper(t);
    CollapseCollapsed(t);
    StripKeepsNoUpper(Collapse(t));
    StripKeepsPlainSpaces(Collapse(t));
  }

  /** Stripping comes last, so the normaliser is not idempotent: a stop typed after a
      space, as in "a .", leaves the space behind, "a ", which a second pass trims. */
  lemma {:induction false} NormalizeNotIdempotent()
    ensures Normalize("a .") == "a "
    ensures Normalize(Normalize("a .")) == "a"
    ensures Normalize(Normalize("a .")) != Normalize("a .")
  {
    FirstPass();
    SecondPass();
  }

  lemma {:induction false} FirstPass()
    ensures Normalize("a .") == "a "
  {
    FirstPassUpToStrip();
    StripExample();
  }

  lemma {:induction false} FirstPassUpToStrip()
    ensures Collapse(Trim(Lower("a ."))) == "a ."
  {
    FirstPassLower();
    FirstPassTrim();
    FirstPassCollapse();
  }

  lemma {:induction false} FirstPassLower()
    ensures Lower("a .") == "a ."
  {
    var u := "a .";
    assert u[0] == 'a' && u[1] == ' ' && u[2] == '.';
    LowerIdentity(u);
  }

  lemma {:induction false} FirstPassTrim()
    ensures Trim("a .") == "a ."
  {
    var u := "a .";
    assert u[0] == 'a' && u[2] == '.';
    TrimIdentity(u);
  }

  lemma {:induction false} FirstPassCollapse()
    ensures Collapse("a .") == "a ."
  {
    var u := "a .";
    assert u[0] == 'a' && u[1] == ' ' && u[2] == '.';
    assert Collapsed(u);
    CollapseIdentity(u);
  }

  lemma {:induction false} StripExample()
    ensures Strip("a .") == "a "
  {
    var u := "a .";
    assert u[1..] == " .";
    assert u[1..][1..] == ".";
    assert Strip(".") == [];
  }

  lemma {:induction false} SecondPass()
    ensures Normalize("a ") == "a"
  {
    LowerExample();
    TrimExample();
    CollapseSingle();
    StripSingle();
  }

  lemma {:induction false} LowerExample()
    ensures Lower("a ") == "a "
  {
    var u := "a ";
    assert u[0] == 'a' && u[1] == ' ';
    LowerIdentity(u);
  }

  lemma {:induction false} CollapseSingle()
    ensures Collapse("a") == "a"
  {
    assert "a"[1..] == [];
  }

  lemma {:induction false} StripSingle()
    ensures Strip("a") == "a"
  {
    assert "a"[1..] == [];
  }

  lemma {:induction false} TrimExample()
    ensures Trim("a ") == "a"
  {
    var u := "a ";
    TrimStartKeeps(u);
    assert u[..|u| - 1] == "a";
    TrimEndKeeps("a");
  }

  /** The same effect inside a sentence: "a . b" normalises to "a  b", with two spaces,
      and a second pass collapses them to "a b". */
  lemma {:induction false} StripLeavesDoubleSpace(u: string, v: string)
    requires u == "a . b" && v == "a  b"
    ensures Normalize(u) == v
    ensures Normalize(v) == "a b"
  {
    InnerPass(u, v);
    DoublePass(v);
  }

  lemma {:induction false} InnerPass(u: string, v: string)
    requires u == "a . b" && v == "a  b"
    ensures Normalize(u) == v
  {
    InnerLower();
    InnerTrim();
    InnerCollapse();
    InnerStrip();
  }

  lemma {:induction false} DoublePass(v: string)
    requires v == "a  b"
    ensures Normalize(v) == "a b"
  {
    DoubleLower();
    DoubleTrim();
    DoubleCollapse(v);
    DoubleStrip();
  }

  lemma {:induction false} InnerLower()
    ensures Lower("a . b") == "a . b"
  {
    var u := "a . b";
    assert u[0] == 'a' && u[1] == ' ' && u[2] == '.' && u[3] == ' ' && u[4] == 'b';
    LowerIdentity(u);
  }

  lemma {:induction false} InnerTrim()
    ensures Trim("a . b") == "a . b"
  {
    var u := "a . b";
    assert u[0] == 'a' && u[4] == 'b';
    TrimIdentity(u);
  }

  lemma {:induction false} InnerCollapse()
    ensures Collapse("a . b") == "a . b"
  {
    var u := "a . b";
    assert u[0] == 'a' && u[1] == ' ' && u[2] == '.' && u[3] == ' ' && u[4] == 'b';
    assert Collapsed(u);
    CollapseIdentity(u);
  }

  lemma {:induction false} InnerStrip()
    ensures Strip("a . b") == "a  b"
  {
    InnerStripSplit("a . b", "a ", ".", " b");
  }

  lemma {:induction false} InnerStripSplit(u: string, p: string, q: string, r: string)
    requires u == p + q + r && p == "a " && q == "." && r == " b"
    ensures Strip(u) == "a  b"
  {
    StripConcat(p + q, r);
    StripConcat(p, q);
    StripOfStop(q);
    StripNoPunct(p);
    StripNoPunct(r);
    assert p + [] + r == "a  b";
  }

  lemma {:induction false} StripOfStop(q: string)
    requires q == "."
    ensures Strip(q) == []
  {
    assert q[0] == '.' && q[1..] == [];
  }

  lemma {:induction false} StripNoPunct(s: string)
    requires |s| == 2 && !IsPunct(s[0]) && !IsPunct(s[1])
    ensures Strip(s) == s
  {
  }

  lemma {:induction false} DoubleLower()
    ensures Lower("a  b") == "a  b"
  {
    var u := "a  b";
    assert u[0] == 'a' && u[1] == ' ' && u[2] == ' ' && u[3] == 'b';
    LowerIdentity(u);
  }

  lemma {:induction false} DoubleTrim()
    ensures Trim("a  b") == "a  b"
  {
    var u := "a  b";
    assert u[0] == 'a' && u[3] == 'b';
    TrimIdentity(u);
  }

  lemma {:induction false} DoubleCollapse(u: string)
    requires u == "a  b"
    ensures Collapse(u) == "a b"
  {
    var w := u[1..];
    DoubleCollapseHead(u, w);
    DoubleCollapseRun(w);
    assert ['a'] + " b" == "a b";
  }

  lemma {:induction false} DoubleCollapseHead(u: string, w: string)
    requires u == "a  b" && w == u[1..]
    ensures w == "  b" && Collapse(u) == ['a'] + Collapse(w)
  {
    assert u[0] == 'a';
  }

  lemma {:induction false} DoubleCollapseRun(w: string)
    requires w == "  b"
    ensures Collapse(w) == " b"
  {
    var z := w[1..];
    assert Collapse(w) == [' '] + Collapse(TrimStart(z)) by {
      assert w[0] == ' ';
      CollapseSpaceHead(w);
    }
    assert TrimStart(z) == ['b'] by {
      assert |z| == 2 && z[0] == ' ' && z[1] == 'b';
      SpaceThenB(z);
      assert z[1..] == ['b'];
    }
    assert Collapse(['b']) == ['b'] by {
      CollapseOneChar('b');
    }
    assert [' '] + ['b'] == " b";
  }

  lemma {:induction false} CollapseSpaceHead(w: string)
    requires w != [] && IsSpace(w[0])
    ensures Collapse(w) == [' '] + Collapse(TrimStart(w[1..]))
  {
  }

  lemma {:induction false} SpaceThenB(z: string)
    requires |z| == 2 && IsSpace(z[0]) && !IsSpace(z[1])
    ensures TrimStart(z) == z[1..]
  {
    TrimStartKeeps(z[1..]);
  }

  lemma {:induction false} DoubleStrip()
    ensures Strip("a b") == "a b"
  {
    var u := "a b";
    assert !IsPunct(u[0]) && !IsPunct(u[1]) && !IsPunct(u[2]);
    assert NoPunct(u);
  }

  /** Without punctuation in the input the normaliser is idempotent: the only reason it is
      not idempotent in general is that stripping can leave adjacent or trailing spaces. */
  lemma {:induction false} NormalizeIdempotentWithoutPunct(s: string)
    requires NoPunct(s)
    ensures Normalize(Normalize(s)) == Normalize(s)
  {
    var t := Trim(Lower(s));
    var n := Normalize(s);
    assert n == Collapse(t) by {
      WithoutPunctNoStrip(s);
    }
    assert NoUpper(n) by {
      NormalizeShape(s);
    }
    assert Trimmed(n) by {
      CollapsedOfTrimmed(t);
    }
    assert Collapsed(n) by {
      CollapseCollapsed(t);
    }
    NormalizeFixedPoint(n);
  }

  /** For a punctuation-free input the final stripping removes nothing. */
  lemma {:induction false} WithoutPunctNoStrip(s: string)
    requires NoPunct(s)
    ensures Normalize(s) == Collapse(Trim(Lower(s)))
  {
    var l := Lower(s);
    var t := Trim(l);
    var c := Collapse(t);
    assert NoPunct(t) by {
      LowerKeepsNoPunct(s);
      TrimMembers(l);
      NoPunctFromMembers(t, l);
    }
    assert NoPunct(c) by {
      CollapseMembers(t);
      NoPunctFromMembers(c, t);
    }
  }

  /** A string made of spaces and characters of a string without `.?!,` has none either. */
  lemma {:induction false} NoPunctFromMembers(x: string, y: string)
    requires NoPunct(y) && forall ch :: ch in x ==> ch == ' ' || ch in y
    ensures NoPunct(x)
  {
    forall i | 0 <= i < |x| ensures !IsPunct(x[i]) {
      assert x[i] in x;
      if x[i] != ' ' {
        var k :| 0 <= k < |y| && y[k] == x[i];
      }
    }
  }

  /** A string already in normal form is left unchanged by the normaliser. */
  lemma {:induction false} NormalizeFixedPoint(n: string)
    requires NoUpper(n) && Trimmed(n) && Collapsed(n) && NoPunct(n)
    ensures Normalize(n) == n
  {
    LowerIdentity(n);
    TrimIdentity(n);
    CollapseIdentity(n);
  }

  // ---------------------------------------------------------------------------
  // Lemmas about the stages

  lemma {:induction false} TrimKeepsNoUpper(s: string)
    requires NoUpper(s)
    ensures NoUpper(Trim(s))
  {
    var t := TrimStart(s);
    NoUpperSuffix(s, |s| - |t|);
    NoUpperPrefix(t, |TrimEnd(t)|);
  }

  lemma {:induction false} NoUpperSuffix(s: string, i: nat)
    requires NoUpper(s) && i <= |s|
    ensures NoUpper(s[i..])
  {
    assert forall k :: 0 <= k < |s| - i ==> s[i..][k] == s[i + k];
  }

  lemma {:induction false} NoUpperPrefix(s: string, j: nat)
    requires NoUpper(s) && j <= |s|
    ensures NoUpper(s[..j])
  {
    assert forall k :: 0 <= k < j ==> s[..j][k] == s[k];
  }

  lemma {:induction false} CollapseKeepsNoUpper(s: string)
    requires NoUpper(s)
    ensures NoUpper(Collapse(s))
  {
    var c := Collapse(s);
    CollapseMembers(s);
    forall i | 0 <= i < |c| ensures !IsUpper(c[i]) {
      assert c[i] in c;
      if c[i] != ' ' {
        var k :| 0 <= k < |s| && s[k] == c[i];
      }
    }
  }

  lemma {:induction false} StripKeepsNoUpper(s: string)
    requires NoUpper(s)
    ensures NoUpper(Strip(s))
  {
    if s != [] {
      assert forall k :: 0 <= k < |s| - 1 ==> s[1..][k] == s[k + 1];
      StripKeepsNoUpper(s[1..]);
    }
  }

  lemma {:induction false} StripKeepsPlainSpaces(s: string)
    requires PlainSpaces(s)
    ensures PlainSpaces(Strip(s))
  {
    if s != [] {
      assert forall k :: 0 <= k < |s| - 1 ==> s[1..][k] == s[k + 1];
      StripKeepsPlainSpaces(s[1..]);
    }
  }

  lemma {:induction false} ConcatNonSpace(a: string, b: string)
    ensures NonSpace(a + b) == NonSpace(a) + NonSpace(b)
  {
    if a == [] {
      assert a + b == b;
    } else {
      var h := if IsSpace(a[0]) then [] else [a[0]];
      assert (a + b)[0] == a[0] && (a + b)[1..] == a[1..] + b;
      assert NonSpace(a + b) == h + NonSpace(a[1..] + b);
      ConcatNonSpace(a[1..], b);
      assert h + (NonSpace(a[1..]) + NonSpace(b)) == (h + NonSpace(a[1..])) + NonSpace(b);
    }
  }

  lemma {:induction false} NonSpaceOfSpaces(p: string, t: string)
    requires AllSpace(p)
    ensures NonSpace(p + t) == NonSpace(t)
  {
    if p != [] {
      assert (p + t)[1..] == p[1..] + t;
      NonSpaceOfSpaces(p[1..], t);
    } else {
      assert p + t == t;
    }
  }

  lemma {:induction false} TrimMembers(s: string)
    ensures forall c :: c in Trim(s) ==> c in s
  {
    var i, j :| 0 <= i <= j <= |s| && Trim(s) == s[i..j];
    forall c | c in Trim(s) ensures c in s {
      var k :| i <= k < j && s[k] == c;
    }
  }

  lemma {:induction false} StripMembers(s: string)
    ensures forall c :: c in Strip(s) ==> c in s
  {
    forall c | c in Strip(s) ensures c in s {
      var i :| 0 <= i < |Strip(s)| && Strip(s)[i] == c;
    }
  }

  lemma {:induction false} LowerKeepsNoPunct(s: string)
    requires NoPunct(s)
    ensures NoPunct(Lower(s))
  {
  }

  lemma {:induction false} LowerIdentity(s: string)
    requires NoUpper(s)
    ensures Lower(s) == s
  {
    if s != [] {
      LowerIdentity(s[1..]);
    }
  }

  lemma {:induction false} TrimStartKeeps(s: string)
    requires s == [] || !IsSpace(s[0])
    ensures TrimStart(s) == s
  {
  }

  lemma {:induction false} TrimEndKeeps(s: string)
    requires s == [] || !IsSpace(s[|s| - 1])
    ensures TrimEnd(s) == s
  {
  }

  lemma {:induction false} TrimIdentity(s: string)
    requires Trimmed(s)
    ensures Trim(s) == s
  {
    TrimStartKeeps(s);
    TrimEndKeeps(s);
  }

  /** Every character `Collapse` outputs is a space or comes from its input. */
  lemma {:induction false} CollapseMembers(s: string)
    ensures forall c :: c in Collapse(s) ==> c == ' ' || c in s
    decreases |s|
  {
    if s == [] {
    } else if IsSpace(s[0]) {
      var rest := TrimStart(s[1..]);
      CollapseMembers(rest);
      forall c | c in rest ensures c in s {
        var k :| 0 <= k < |rest| && rest[k] == c;
        assert s[1..][|s[1..]| - |rest| + k] == c;
      }
    } else {
      CollapseMembers(s[1..]);
      assert forall c :: c in s[1..] ==> c in s;
    }
  }

  /** `Collapse` leaves no white space but single plain spaces. */
  lemma {:induction false} CollapseCollapsed(s: string)
    ensures Collapsed(Collapse(s))
    decreases |s|
  {
    if s == [] {
    } else if IsSpace(s[0]) {
      var rest := TrimStart(s[1..]);
      CollapseCollapsed(rest);
      var r := Collapse(rest);
      assert Collapse(s) == [' '] + r;
      assert r != [] ==> !IsSpace(r[0]);
    } else {
      CollapseCollapsed(s[1..]);
      assert Collapse(s) == [s[0]] + Collapse(s[1..]);
    }
  }

  /** `Collapse` keeps every non-space character, in order. */
  lemma {:induction false} CollapseNonSpace(s: string)
    ensures NonSpace(Collapse(s)) == NonSpace(s)
    decreases |s|
  {
    if s == [] {
    } else if IsSpace(s[0]) {
      var rest := TrimStart(s[1..]);
      CollapseNonSpace(rest);
      NonSpaceSkipsRun(s);
      NonSpaceOfSpaces([' '], Collapse(rest));
    } else {
      CollapseNonSpace(s[1..]);
      NonSpaceCons(s[0], Collapse(s[1..]));
    }
  }

  lemma {:induction false} NonSpaceCons(c: char, s: string)
    requires !IsSpace(c)
    ensures NonSpace([c] + s) == [c] + NonSpace(s)
  {
    assert ([c] + s)[0] == c && ([c] + s)[1..] == s;
  }

  /** A leading white-space run contributes nothing to `NonSpace`. */
  lemma {:induction false} NonSpaceSkipsRun(s: string)
    requires s != [] && IsSpace(s[0])
    ensures NonSpace(s) == NonSpace(TrimStart(s[1..]))
  {
    var t := s[1..];
    var rest := TrimStart(t);
    var run := t[..|t| - |rest|];
    assert t == run + rest;
    NonSpaceOfSpaces(run, rest);
  }

  /** A collapsed string is left as it is. */
  lemma {:induction false} CollapseIdentity(s: string)
    requires Collapsed(s)
    ensures Collapse(s) == s
    decreases |s|
  {
    if s != [] {
      assert Collapsed(s[1..]);
      if IsSpace(s[0]) {
        assert s[0] == ' ';
        TrimStartKeeps(s[1..]);
      }
      CollapseIdentity(s[1..]);
    }
  }

  /** The last character of `Collapse(s)` is a space exactly when that of `s` is white. */
  lemma {:induction false} CollapseLast(s: string)
    requires s != []
    ensures IsSpace(s[|s| - 1]) ==> Collapse(s)[|Collapse(s)| - 1] == ' '
    ensures !IsSpace(s[|s| - 1]) ==> Collapse(s)[|Collapse(s)| - 1] == s[|s| - 1]
  {
    LastChar(s);
  }

  /** The character a white-space run ends in after collapsing. */
  function Collapsed1(c: char): char {
    if IsSpace(c) then ' ' else c
  }

  lemma {:induction false} LastChar(s: string)
    requires s != []
    ensures Collapse(s)[|Collapse(s)| - 1] == Collapsed1(s[|s| - 1])
    decreases |s|, 1
  {
    if !IsSpace(s[0]) {
      LastAfterChar(s);
    } else if TrimStart(s[1..]) == [] {
      TrimStartEmpty(s[1..]);
      AllSpaceCons(s);
      CollapseOfSpaces(s);
    } else {
      LastAfterRun(s);
    }
  }

  lemma {:induction false} LastAfterChar(s: string)
    requires s != [] && !IsSpace(s[0])
    ensures Collapse(s)[|Collapse(s)| - 1] == Collapsed1(s[|s| - 1])
    decreases |s|, 0
  {
    if |s| > 1 {
      LastChar(s[1..]);
      LastOfConcat([s[0]], Collapse(s[1..]));
    } else {
      assert s[1..] == [];
    }
  }

  lemma {:induction false} LastAfterRun(s: string)
    requires s != [] && IsSpace(s[0]) && TrimStart(s[1..]) != []
    ensures Collapse(s)[|Collapse(s)| - 1] == Collapsed1(s[|s| - 1])
    decreases |s|, 0
  {
    var rest := TrimStart(s[1..]);
    RunFacts(s, rest);
    LastChar(rest);
  }

  /** After a leading run, the rest of the string decides the last character. */
  lemma {:induction false} RunFacts(s: string, rest: string)
    requires s != [] && IsSpace(s[0]) && rest == TrimStart(s[1..]) && rest != []
    ensures |rest| < |s| && rest[|rest| - 1] == s[|s| - 1]
    ensures Collapse(s)[|Collapse(s)| - 1] == Collapse(rest)[|Collapse(rest)| - 1]
  {
    TrimStartLast(s);
    LastAfterSpaceHead(s);
  }

  lemma {:induction false} LastAfterSpaceHead(s: string)
    requires s != [] && IsSpace(s[0]) && TrimStart(s[1..]) != []
    ensures Collapse(s)[|Collapse(s)| - 1] == Collapse(TrimStart(s[1..]))[|Collapse(TrimStart(s[1..]))| - 1]
  {
    CollapseSpaceHead(s);
    LastOfConcat([' '], Collapse(TrimStart(s[1..])));
  }

  lemma {:induction false} TrimStartLast(s: string)
    requires s != [] && TrimStart(s[1..]) != []
    ensures TrimStart(s[1..])[|TrimStart(s[1..])| - 1] == s[|s| - 1]
  {
    SuffixOfTailLast(s, TrimStart(s[1..]));
  }

  lemma {:induction false} SuffixOfTailLast(s: string, r: string)
    requires s != [] && |r| <= |s[1..]| && r == s[1..][|s[1..]| - |r|..] && r != []
    ensures r[|r| - 1] == s[|s| - 1]
  {
    SuffixLast(s[1..], r);
  }

  lemma {:induction false} SuffixLast(s: string, r: string)
    requires |r| <= |s| && r == s[|s| - |r|..] && r != []
    ensures r[|r| - 1] == s[|s| - 1]
  {
  }

  lemma {:induction false} LastOfConcat(a: string, b: string)
    requires b != []
    ensures (a + b)[|a + b| - 1] == b[|b| - 1]
  {
  }

  /** A string made of white space only collapses to one space. */
  lemma {:induction false} CollapseOfSpaces(s: string)
    requires s != [] && AllSpace(s)
    ensures Collapse(s) == [' ']
  {
    CollapseSpaceHead(s);
    AllSpaceCons(s);
    TrimStartAllSpace(s[1..]);
    assert Collapse([]) == [];
  }

  /** `TrimStart` removes everything only from a string of white space. */
  lemma {:induction false} TrimStartEmpty(t: string)
    requires TrimStart(t) == []
    ensures AllSpace(t)
  {
    if t != [] {
      assert IsSpace(t[0]);
      TrimStartEmpty(t[1..]);
      AllSpaceCons(t);
    }
  }

  /** Collapsing a trimmed string gives a trimmed string. */
  lemma {:induction false} CollapsedOfTrimmed(t: string)
    requires Trimmed(t)
    ensures Trimmed(Collapse(t))
  {
    if t != [] {
      CollapseLast(t);
    }
  }

  /** Lowering twice is lowering once. */
  lemma {:induction false} LowerIdempotent(s: string)
    ensures Lower(Lower(s)) == Lower(s)
  {
    LowerIdentity(Lower(s));
  }

  /** `Lower` works character by character, so it distributes over concatenation. */
  lemma {:induction false} LowerConcat(a: string, b: string)
    ensures Lower(a + b) == Lower(a) + Lower(b)
  {
    if a == [] {
      assert a + b == b;
    } else {
      assert (a + b)[1..] == a[1..] + b;
      LowerConcat(a[1..], b);
    }
  }

  /** White space is not an upper-case letter, so `Lower` keeps it. */
  lemma {:induction false} LowerKeepsSpace(p: string)
    requires AllSpace(p)
    ensures Lower(p) == p
  {
    LowerIdentity(p);
  }

  lemma {:induction false} TrimStartSkipsSpace(p: string, s: string)
    requires AllSpace(p)
    ensures TrimStart(p + s) == TrimStart(s)
  {
    if p == [] {
      assert p + s == s;
    } else {
      assert (p + s)[1..] == p[1..] + s;
      TrimStartSkipsSpace(p[1..], s);
    }
  }

  lemma {:induction false} TrimEndSkipsSpace(s: string, q: string)
    requires AllSpace(q)
    ensures TrimEnd(s + q) == TrimEnd(s)
    decreases |q|
  {
    if q == [] {
      assert s + q == s;
    } else {
      var q' := q[..|q| - 1];
      assert (s + q)[..|s + q| - 1] == s + q';
      TrimEndSkipsSpace(s, q');
    }
  }

  /** Trailing white space after a string that has a non-space character survives
      `TrimStart` and is then removed by `TrimEnd`. */
  lemma {:induction false} TrimStartAppend(s: string, q: string)
    ensures TrimStart(s + q) == (if AllSpace(s) then TrimStart(q) else TrimStart(s) + q)
  {
    if s == [] {
      assert s + q == q;
    } else if IsSpace(s[0]) {
      assert (s + q)[0] == s[0] && (s + q)[1..] == s[1..] + q;
      TrimStartAppend(s[1..], q);
      AllSpaceCons(s);
    } else {
      assert (s + q)[0] == s[0];
    }
  }

  lemma {:induction false} AllSpaceCons(s: string)
    requires s != []
    ensures AllSpace(s) <==> IsSpace(s[0]) && AllSpace(s[1..])
  {
    assert forall k :: 0 <= k < |s| - 1 ==> s[1..][k] == s[k + 1];
    if IsSpace(s[0]) && AllSpace(s[1..]) {
      forall k | 0 <= k < |s| ensures IsSpace(s[k]) {
        if k > 0 {
          assert s[k] == s[1..][k - 1];
        }
      }
    }
  }

  /** Trimming ignores white space added at either end. */
  lemma {:induction false} TrimIgnoresSurroundingSpace(p: string, s: string, q: string)
    requires AllSpace(p) && AllSpace(q)
    ensures Trim(p + s + q) == Trim(s)
  {
    assert p + s + q == p + (s + q);
    TrimStartSkipsSpace(p, s + q);
    if AllSpace(s) {
      TrimOfSpaces(s, q);
    } else {
      TrimOfTextThenSpaces(s, q);
    }
  }

  lemma {:induction false} TrimOfSpaces(s: string, q: string)
    requires AllSpace(s) && AllSpace(q)
    ensures TrimEnd(TrimStart(s + q)) == TrimEnd(TrimStart(s))
  {
    assert AllSpace(s + q) by {
      assert forall k :: 0 <= k < |s + q| ==> (s + q)[k] == (if k < |s| then s[k] else q[k - |s|]);
    }
    TrimStartAllSpace(s + q);
    TrimStartAllSpace(s);
  }

  lemma {:induction false} TrimOfTextThenSpaces(s: string, q: string)
    requires !AllSpace(s) && AllSpace(q)
    ensures TrimEnd(TrimStart(s + q)) == TrimEnd(TrimStart(s))
  {
    TrimStartAppend(s, q);
    TrimEndSkipsSpace(TrimStart(s), q);
  }

  /** Surrounding white space does not change the normal form. */
  lemma {:induction false} NormalizeIgnoresSurroundingSpace(p: string, s: string, q: string)
    requires AllSpace(p) && AllSpace(q)
    ensures Normalize(p + s + q) == Normalize(s)
  {
    LowerConcat(p + s, q);
    LowerConcat(p, s);
    LowerKeepsSpace(p);
    LowerKeepsSpace(q);
    TrimIgnoresSurroundingSpace(p, Lower(s), q);
  }

  lemma {:induction false} StripConcat(a: string, b: string)
    ensures Strip(a + b) == Strip(a) + Strip(b)
  {
    if a == [] {
      assert a + b == b;
    } else {
      assert (a + b)[1..] == a[1..] + b;
      StripConcat(a[1..], b);
    }
  }

  /** A non-space character ends the last white-space run, so it is appended unchanged. */
  lemma {:induction false} CollapseAppendNonSpace(x: string, c: char)
    requires !IsSpace(c)
    ensures Collapse(x + [c]) == Collapse(x) + [c]
    decreases |x|, 1
  {
    if x == [] {
      AppendToEmpty(x, c);
    } else if !IsSpace(x[0]) {
      AppendAfterCharHead(x, c);
    } else if AllSpace(x[1..]) {
      CollapseSpaceRunThenChar(x, c);
    } else {
      AppendAfterSpaceHead(x, c);
    }
  }

  lemma {:induction false} AppendToEmpty(x: string, c: char)
    requires x == [] && !IsSpace(c)
    ensures Collapse(x + [c]) == Collapse(x) + [c]
  {
    assert x + [c] == [c];
    assert Collapse(x) + [c] == [c];
    CollapseOneChar(c);
  }

  lemma {:induction false} AppendAfterCharHead(x: string, c: char)
    requires x != [] && !IsSpace(x[0]) && !IsSpace(c)
    ensures Collapse(x + [c]) == Collapse(x) + [c]
    decreases |x|, 0
  {
    CollapseUnfoldAppend(x, c);
    CollapseAppendNonSpace(x[1..], c);
    assert [x[0]] + (Collapse(x[1..]) + [c]) == ([x[0]] + Collapse(x[1..])) + [c];
  }

  lemma {:induction false} AppendAfterSpaceHead(x: string, c: char)
    requires x != [] && IsSpace(x[0]) && !AllSpace(x[1..]) && !IsSpace(c)
    ensures Collapse(x + [c]) == Collapse(x) + [c]
    decreases |x|, 0
  {
    var y := x[1..];
    CollapseUnfoldAppend(x, c);
    TrimStartAppend(y, [c]);
    CollapseAppendNonSpace(TrimStart(y), c);
    assert [' '] + (Collapse(TrimStart(y)) + [c]) == ([' '] + Collapse(TrimStart(y))) + [c];
  }

  /** One step of `Collapse` on `x + [c]`, taken at the head of `x`. */
  lemma {:induction false} CollapseUnfoldAppend(x: string, c: char)
    requires x != []
    ensures IsSpace(x[0]) ==> Collapse(x + [c]) == [' '] + Collapse(TrimStart(x[1..] + [c]))
    ensures !IsSpace(x[0]) ==> Collapse(x + [c]) == [x[0]] + Collapse(x[1..] + [c])
  {
    assert (x + [c])[0] == x[0] && (x + [c])[1..] == x[1..] + [c];
  }

  lemma {:induction false} CollapseOneChar(c: char)
    requires !IsSpace(c)
    ensures Collapse([c]) == [c]
  {
    assert [c][1..] == [];
  }

  lemma {:induction false} TrimStartAllSpace(s: string)
    requires AllSpace(s)
    ensures TrimStart(s) == []
  {
    if s != [] {
      TrimStartAllSpace(s[1..]);
    }
  }

  /** A white-space run followed by one non-space character collapses to a space and that
      character. */
  lemma {:induction false} CollapseSpaceRunThenChar(x: string, c: char)
    requires x != [] && IsSpace(x[0]) && AllSpace(x[1..]) && !IsSpace(c)
    ensures Collapse(x + [c]) == [' ', c]
    ensures Collapse(x) == [' ']
    ensures Collapse(x + [c]) == Collapse(x) + [c]
  {
    var y := x[1..];
    CollapseUnfoldAppend(x, c);
    TrimStartSkipsSpace(y, [c]);
    TrimStartKeeps([c]);
    CollapseOneChar(c);
    TrimStartAllSpace(y);
    assert Collapse(x) == [' '] + Collapse([]);
    assert [' '] + [c] == [' ', c];
  }

  /** Appending a non-space character to a string that ends in a non-space character
      commutes with trimming. */
  lemma {:induction false} TrimAppendNonSpace(l: string, c: char)
    requires l != [] && !IsSpace(l[|l| - 1]) && !IsSpace(c)
    ensures Trim(l + [c]) == Trim(l) + [c]
  {
    assert !AllSpace(l);
    TrimStartAppend(l, [c]);
    var t := TrimStart(l);
    assert t != [] && t[|t| - 1] == l[|l| - 1];
    TrimEndKeeps(t);
    var tc := t + [c];
    assert tc[|tc| - 1] == c;
    TrimEndKeeps(tc);
  }

  /** A final `.`, `?`, `!` or `,` right after a non-space character is ignored. */
  lemma {:induction false} NormalizeIgnoresFinalPunct(s: string, c: char)
    requires IsPunct(c) && s != [] && !IsSpace(s[|s| - 1])
    ensures Normalize(s + [c]) == Normalize(s)
  {
    var l := Lower(s);
    LowerAppendPunct(s, c);
    TrimAppendNonSpace(l, c);
    CollapseAppendNonSpace(Trim(l), c);
    StripAppendPunct(Collapse(Trim(l)), c);
  }

  lemma {:induction false} LowerAppendPunct(s: string, c: char)
    requires IsPunct(c) && s != [] && !IsSpace(s[|s| - 1])
    ensures Lower(s + [c]) == Lower(s) + [c]
    ensures Lower(s) != [] && !IsSpace(Lower(s)[|Lower(s)| - 1])
  {
    LowerConcat(s, [c]);
    assert [c][1..] == [];
    var l := Lower(s);
    assert l[|l| - 1] == LowerChar(s[|s| - 1]);
  }

  lemma {:induction false} StripAppendPunct(x: string, c: char)
    requires IsPunct(c)
    ensures Strip(x + [c]) == Strip(x)
  {
    StripConcat(x, [c]);
    assert [c][1..] == [];
    assert Strip(x) + [] == Strip(x);
  }

  // ---------------------------------------------------------------------------
  // One space per white-space run

  /** No white-space run crosses the end of a string that ends in a non-space character,
      so such a prefix collapses on its own. */
  lemma {:induction false} CollapseConcat(p: string, r: string)
    requires p == [] || !IsSpace(p[|p| - 1])
    ensures Collapse(p + r) == Collapse(p) + Collapse(r)
    decreases |p|, 1
  {
    if p == [] {
      assert p + r == r;
    } else if !IsSpace(p[0]) {
      ConcatAfterChar(p, r);
    } else {
      ConcatAfterSpace(p, r);
    }
  }

  lemma {:induction false} ConcatAfterChar(p: string, r: string)
    requires p != [] && !IsSpace(p[0]) && !IsSpace(p[|p| - 1])
    ensures Collapse(p + r) == Collapse(p) + Collapse(r)
    decreases |p|, 0
  {
    var t := p[1..];
    assert Collapse(p + r) == [p[0]] + Collapse(t + r) by {
      ConsTail(p, r);
    }
    assert Collapse(t + r) == Collapse(t) + Collapse(r) by {
      TailKeepsLast(p);
      CollapseConcat(t, r);
    }
    Assoc3([p[0]], Collapse(t), Collapse(r));
  }

  lemma {:induction false} ConcatAfterSpace(p: string, r: string)
    requires p != [] && IsSpace(p[0]) && !IsSpace(p[|p| - 1])
    ensures Collapse(p + r) == Collapse(p) + Collapse(r)
    decreases |p|, 0
  {
    var t := TrimStart(p[1..]);
    assert t != [] && !IsSpace(t[|t| - 1]) by {
      RunRestKeepsLast(p);
    }
    assert Collapse(p + r) == [' '] + Collapse(t + r) by {
      SpaceHeadAppend(p, r);
    }
    assert Collapse(t + r) == Collapse(t) + Collapse(r) by {
      CollapseConcat(t, r);
    }
    Assoc3([' '], Collapse(t), Collapse(r));
  }

  lemma {:induction false} Assoc3(a: string, b: string, c: string)
    ensures a + (b + c) == a + b + c
  {
  }

  /** Collapsing `p + r` at a non-space head of `p`. */
  lemma {:induction false} ConsTail(p: string, r: string)
    requires p != [] && !IsSpace(p[0])
    ensures Collapse(p + r) == [p[0]] + Collapse(p[1..] + r)
  {
    assert (p + r)[0] == p[0] && (p + r)[1..] == p[1..] + r;
  }

  lemma {:induction false} TailKeepsLast(p: string)
    requires p != [] && !IsSpace(p[|p| - 1])
    ensures p[1..] == [] || !IsSpace(p[1..][|p[1..]| - 1])
  {
  }

  /** Collapsing `p + r` at a white-space head of `p` whose rest is not all white space. */
  lemma {:induction false} SpaceHeadAppend(p: string, r: string)
    requires p != [] && IsSpace(p[0]) && !IsSpace(p[|p| - 1])
    ensures Collapse(p + r) == [' '] + Collapse(TrimStart(p[1..]) + r)
  {
    var y := p[1..];
    assert (p + r)[0] == p[0] && (p + r)[1..] == y + r;
    assert !AllSpace(y) by {
      NotAllSpaceLast(y);
    }
    TrimStartAppend(y, r);
  }

  /** The rest after a leading run is not empty and keeps the non-space last character. */
  lemma {:induction false} RunRestKeepsLast(p: string)
    requires p != [] && IsSpace(p[0]) && !IsSpace(p[|p| - 1])
    ensures TrimStart(p[1..]) != [] && !IsSpace(TrimStart(p[1..])[|TrimStart(p[1..])| - 1])
  {
    var y := p[1..];
    NotAllSpaceLast(y);
    if TrimStart(y) == [] {
      TrimStartEmpty(y);
    }
    TrimStartLast(p);
  }

  lemma {:induction false} NotAllSpaceLast(a: string)
    requires a != [] && !IsSpace(a[|a| - 1])
    ensures !AllSpace(a)
  {
  }

  lemma {:induction false} NotAllSpaceFirst(b: string)
    requires b != [] && !IsSpace(b[0])
    ensures !AllSpace(b)
  {
  }

  /** A white-space run followed by a string that does not start with white space
      becomes one space in front of that string's collapsed form. */
  lemma {:induction false} CollapseRunThenText(w: string, q: string)
    requires w != [] && AllSpace(w)
    requires q == [] || !IsSpace(q[0])
    ensures Collapse(w + q) == [' '] + Collapse(q)
  {
    assert (w + q)[0] == w[0] && (w + q)[1..] == w[1..] + q;
    AllSpaceCons(w);
    TrimStartSkipsSpace(w[1..], q);
    TrimStartKeeps(q);
  }

  /** `replace(/\s+/g, ' ')` turns a white-space run between two non-space characters into
      exactly one space, whatever its length and its characters. */
  lemma {:induction false} InteriorRun(p: string, w: string, q: string)
    requires w != [] && AllSpace(w)
    requires p == [] || !IsSpace(p[|p| - 1])
    requires q == [] || !IsSpace(q[0])
    ensures Collapse(p + w + q) == Collapse(p) + [' '] + Collapse(q)
  {
    Assoc3(p, w, q);
    CollapseConcat(p, w + q);
    CollapseRunThenText(w, q);
    Assoc3(Collapse(p), [' '], Collapse(q));
  }

  lemma {:induction false} SpacesArePlain(s: string)
    requires forall i :: 0 <= i < |s| ==> s[i] == ' '
    ensures AllSpace(s)
  {
  }

  /** The pieces of "  I   go to school.  ": two runs around the text and an inner run
      where the key "I go to school." has one space. */
  lemma {:induction false} SpacingPieces(lead: string, p: string, w: string, r: string, trail: string)
    requires lead == "  " && p == "I" && w == "   " && r == "go to school." && trail == "  "
    ensures lead + p + w + r + trail == "  I   go to school.  " && p + [' '] + r == "I go to school."
    ensures AllSpace(lead) && AllSpace(w) && AllSpace(trail)
    ensures !IsSpace(p[|p| - 1]) && !IsSpace(r[0])
  {
    SpacesArePlain(lead);
    SpacesArePlain(w);
    SpacesArePlain(trail);
  }

  lemma {:induction false} AllSpaceSnoc(s: string)
    requires s != []
    ensures AllSpace(s) <==> AllSpace(s[..|s| - 1]) && IsSpace(s[|s| - 1])
  {
    assert forall k :: 0 <= k < |s| - 1 ==> s[..|s| - 1][k] == s[k];
  }

  lemma {:induction false} TrimEndPrepend(x: string, b: string)
    requires !AllSpace(b)
    ensures TrimEnd(x + b) == x + TrimEnd(b)
    decreases |b|
  {
    assert (x + b)[|x + b| - 1] == b[|b| - 1];
    if IsSpace(b[|b| - 1]) {
      var b' := b[..|b| - 1];
      assert (x + b)[..|x + b| - 1] == x + b';
      AllSpaceSnoc(b);
      TrimEndPrepend(x, b');
    }
  }

  lemma {:induction false} LowerCharKeepsClass(c: char)
    ensures IsSpace(LowerChar(c)) <==> IsSpace(c)
    ensures IsPunct(LowerChar(c)) <==> IsPunct(c)
  {
  }

  /** Trimming a string whose inside is `a + w + b`, with `a` ending and `b` starting in a
      non-space character, only touches the ends of `a` and `b`. */
  lemma {:induction false} TrimAroundRun(a: string, w: string, b: string)
    requires a != [] && !IsSpace(a[|a| - 1]) && b != [] && !IsSpace(b[0])
    ensures Trim(a + w + b) == TrimStart(a) + w + TrimEnd(b)
  {
    var a' := TrimStart(a);
    NotAllSpaceLast(a);
    NotAllSpaceFirst(b);
    Assoc3(a, w, b);
    TrimStartAppend(a, w + b);
    Assoc3(a', w, b);
    TrimEndPrepend(a' + w, b);
    TrimUnfold(a + w + b);
  }

  lemma {:induction false} TrimUnfold(s: string)
    ensures Trim(s) == TrimEnd(TrimStart(s))
  {
  }

  /** After trimming, the two sides of an inner run still end and start in non-space
      characters. */
  lemma {:induction false} TrimmedSides(a: string, b: string)
    requires a != [] && !IsSpace(a[|a| - 1]) && b != [] && !IsSpace(b[0])
    ensures TrimStart(a) != [] && !IsSpace(TrimStart(a)[|TrimStart(a)| - 1])
    ensures TrimEnd(b) != [] && !IsSpace(TrimEnd(b)[0])
  {
    var a' := TrimStart(a);
    if a' == [] {
      TrimStartEmpty(a);
    }
    SuffixLast(a, a');
    var b' := TrimEnd(b);
    assert b[0..] == b;
  }

  /** The normal form of `p + w + r` for an inner run `w`, in terms of `p` and `r` alone. */
  lemma {:induction false} NormalizeAroundRun(p: string, w: string, r: string)
    requires p != [] && !IsSpace(p[|p| - 1]) && r != [] && !IsSpace(r[0])
    requires w != [] && AllSpace(w)
    ensures Normalize(p + w + r) ==
            Strip(Collapse(TrimStart(Lower(p))) + [' '] + Collapse(TrimEnd(Lower(r))))
  {
    var a := Lower(p);
    var b := Lower(r);
    assert Lower(p + w + r) == a + w + b by {
      LowerConcat(p + w, r);
      LowerConcat(p, w);
      LowerKeepsSpace(w);
    }
    assert !IsSpace(a[|a| - 1]) && !IsSpace(b[0]) by {
      LowerCharKeepsClass(p[|p| - 1]);
      LowerCharKeepsClass(r[0]);
    }
    TrimAroundRun(a, w, b);
    TrimmedSides(a, b);
    InteriorRun(TrimStart(a), w, TrimEnd(b));
  }

  /** An inner white-space run of any length and kind normalises like a single space. */
  lemma {:induction false} NormalizeInnerRun(p: string, w: string, r: string)
    requires p != [] && !IsSpace(p[|p| - 1]) && r != [] && !IsSpace(r[0])
    requires w != [] && AllSpace(w)
    ensures Normalize(p + w + r) == Normalize(p + [' '] + r)
  {
    var single: string := [' '];
    assert AllSpace(single) by {
      assert forall k :: 0 <= k < |single| ==> single[k] == ' ';
    }
    var both := Strip(Collapse(TrimStart(Lower(p))) + [' '] + Collapse(TrimEnd(Lower(r))));
    assert Normalize(p + w + r) == both by {
      NormalizeAroundRun(p, w, r);
    }
    assert Normalize(p + single + r) == both by {
      NormalizeAroundRun(p, single, r);
    }
  }

  // ---------------------------------------------------------------------------
  // The letters of an answer

  /** The characters of `s` that are neither white space nor `.?!,`, in order. */
  function Letters(s: string): string {
    Strip(NonSpace(s))
  }

  lemma {:induction false} LettersConcat(a: string, b: string)
    ensures Letters(a + b) == Letters(a) + Letters(b)
  {
    ConcatNonSpace(a, b);
    StripConcat(NonSpace(a), NonSpace(b));
  }

  lemma {:induction false} NonSpaceStrip(s: string)
    ensures NonSpace(Strip(s)) == Strip(NonSpace(s))
  {
    if s != [] {
      var c := s[0];
      var h1: string := if IsPunct(c) then [] else [c];
      var h2: string := if IsSpace(c) then [] else [c];
      assert Strip(s) == h1 + Strip(s[1..]);
      assert NonSpace(s) == h2 + NonSpace(s[1..]);
      ConcatNonSpace(h1, Strip(s[1..]));
      StripConcat(h2, NonSpace(s[1..]));
      NonSpaceStrip(s[1..]);
      assert [c][1..] == [];
      assert NonSpace(h1) == Strip(h2);
    }
  }

  lemma {:induction false} NonSpaceTrim(l: string)
    ensures NonSpace(Trim(l)) == NonSpace(l)
  {
    var i, j :| 0 <= i <= j <= |l| && Trim(l) == l[i..j] && AllSpace(l[..i]) && AllSpace(l[j..]);
    assert l == l[..i] + (l[i..j] + l[j..]);
    NonSpaceOfSpaces(l[..i], l[i..j] + l[j..]);
    ConcatNonSpace(l[i..j], l[j..]);
    NonSpaceOfSpaces(l[j..], []);
    assert l[j..] + [] == l[j..];
  }

  /** Normalising keeps the letters of the lowered input: only white space and `.?!,`
      are ever added or removed. */
  lemma {:induction false} LettersOfNormalize(s: string)
    ensures Letters(Normalize(s)) == Letters(Lower(s))
  {
    var l := Lower(s);
    var t := Trim(l);
    var c := Collapse(t);
    NonSpaceStrip(c);
    assert Strip(Strip(NonSpace(c))) == Strip(NonSpace(c));
    CollapseNonSpace(t);
    NonSpaceTrim(l);
  }

  lemma {:induction false} LettersOfLetter(s: string, i: nat)
    requires i < |s| && !IsSpace(s[i]) && !IsPunct(s[i])
    ensures |Letters(s)| >= 1
  {
    var c := s[i];
    assert s == s[..i] + ([c] + s[i + 1..]);
    LettersConcat(s[..i], [c] + s[i + 1..]);
    LettersConcat([c], s[i + 1..]);
    assert [c][1..] == [];
    assert Letters([c]) == [c];
  }

  /** Inserting a piece that holds a letter changes the normal form, whatever white space
      and punctuation surround it. */
  lemma {:induction false} NormalizeDetectsExtraWord(p: string, x: string, r: string, i: nat)
    requires i < |x| && !IsSpace(x[i]) && !IsPunct(x[i])
    ensures Normalize(p + x + r) != Normalize(p + r)
  {
    LettersOfNormalize(p + x + r);
    LettersOfNormalize(p + r);
    LowerConcat(p + x, r);
    LowerConcat(p, x);
    LowerConcat(p, r);
    LettersConcat(Lower(p) + Lower(x), Lower(r));
    LettersConcat(Lower(p), Lower(x));
    LettersConcat(Lower(p), Lower(r));
    LowerCharKeepsClass(x[i]);
    LettersOfLetter(Lower(x), i);
  }
}
