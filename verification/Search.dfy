/** Article search: the escaped LIKE pattern of one backend and the substring test of the other. */
module Search {

  const ESCAPE: char := '\\'

  predicate IsMeta(c: char) {
    c == '%' || c == '_' || c == ESCAPE
  }

  /** The replacer puts the escape character before each metacharacter. */
  function EscapeLike(s: string): string {
    if s == "" then ""
    else (if IsMeta(s[0]) then [ESCAPE, s[0]] else [s[0]]) + EscapeLike(s[1..])
  }

  function SearchPattern(search: string): string {
    "%" + EscapeLike(search) + "%"
  }

  /** LIKE with ESCAPE '\' (section 9.7.1 of the PostgreSQL manual): % is any text, _ any character,
      the escape makes the next character literal. */
  predicate Like(p: string, s: string)
    decreases |p| + |s|
  {
    if p == "" then s == ""
    else if p[0] == '%' then Like(p[1..], s) || (s != "" && Like(p, s[1..]))
    else if p[0] == '_' then s != "" && Like(p[1..], s[1..])
    else if p[0] == ESCAPE then |p| >= 2 && s != "" && s[0] == p[1] && Like(p[2..], s[1..])
    else s != "" && s[0] == p[0] && Like(p[1..], s[1..])
  }

  /** PostgreSQL rejects a pattern that ends in the middle of an escape. */
  predicate WellFormed(p: string) {
    if p == "" then true
    else if p[0] == ESCAPE then |p| >= 2 && WellFormed(p[2..])
    else WellFormed(p[1..])
  }

  // ---------- what a pattern means ----------

  /** The meaning of LIKE, symbol by symbol: a pattern matches a text exactly when the text splits into what its parts
      match; a percent sign matches any text, an underscore any one character, and an escaped or plain character
      itself. */
  lemma LikeLaws(c: char, s: string)
    ensures Like("", s) <==> s == ""
    ensures Like("%", s)
    ensures Like("_", s) <==> |s| == 1
    ensures Like("\\" + [c], s) <==> s == [c]
    ensures c != '%' && c != '_' && c != '\\' ==> (Like([c], s) <==> s == [c])
  {
    PercentMatchesAll(s);
    var p := "\\" + [c];
    assert p[2..] == "" && "_"[1..] == "" && [c][1..] == "";
    if s != "" { assert s == [s[0]] + s[1..]; }
  }

  lemma {:induction false} LikeOfConcat(p: string, q: string, s: string)
    requires WellFormed(p)
    ensures Like(p + q, s) <==> exists i | 0 <= i <= |s| :: Like(p, s[..i]) && Like(q, s[i..])
    decreases |p| + |s|
  {
    if p == "" {
      assert p + q == q && s[..0] == "" && s[0..] == s;
    } else if p[0] == '%' {
      assert (p + q)[1..] == p[1..] + q;
      LikeOfConcat(p[1..], q, s);
      if s == "" {
        assert s[..0] == "" && s[0..] == s;
      } else {
        LikeOfConcat(p, q, s[1..]);
        PercentSplits(p, q, s);
      }
    } else {
      var n := if p[0] == ESCAPE then 2 else 1;
      assert (p + q)[n..] == p[n..] + q;
      assert n == 2 ==> (p + q)[1] == p[1];
      if s != "" { LikeOfConcat(p[n..], q, s[1..]); }
      OneCharSplits(p, q, s, n);
    }
  }

  ghost predicate Splits(p: string, q: string, s: string) {
    exists i | 0 <= i <= |s| :: Like(p, s[..i]) && Like(q, s[i..])
  }

  lemma PercentSplits(p: string, q: string, s: string)
    requires p != "" && p[0] == '%' && s != ""
    ensures Splits(p, q, s) <==> Splits(p[1..], q, s) || Splits(p, q, s[1..])
  {
    forall i | 1 <= i <= |s| ensures s[..i][1..] == s[1..][..i - 1] && s[i..] == s[1..][i - 1..] {}
    if i :| 0 <= i <= |s| && Like(p, s[..i]) && Like(q, s[i..]) {
      if !Like(p[1..], s[..i]) { assert Like(p, s[1..][..i - 1]) && Like(q, s[1..][i - 1..]); }
    }
    if i :| 0 <= i <= |s| && Like(p[1..], s[..i]) && Like(q, s[i..]) { assert Like(p, s[..i]); }
    if i :| 0 <= i <= |s[1..]| && Like(p, s[1..][..i]) && Like(q, s[1..][i..]) {
      assert s[..i + 1][1..] == s[1..][..i];
      assert Like(p, s[..i + 1]) && Like(q, s[i + 1..]);
    }
  }

  /** A first symbol that takes one character of the text. */
  lemma OneCharSplits(p: string, q: string, s: string, n: nat)
    requires p != "" && p[0] != '%' && WellFormed(p) && n == if p[0] == ESCAPE then 2 else 1
    ensures var fits := s != "" && (p[0] == '_' || s[0] == p[n - 1]);
      Splits(p, q, s) <==> fits && Splits(p[n..], q, s[1..])
  {
    forall i | 1 <= i <= |s| ensures s[..i][1..] == s[1..][..i - 1] && s[i..] == s[1..][i - 1..] {}
    if i :| 0 <= i <= |s| && Like(p, s[..i]) && Like(q, s[i..]) {
      assert i >= 1 && s[..i][0] == s[0];
      assert Like(p[n..], s[1..][..i - 1]) && Like(q, s[1..][i - 1..]);
    }
    if s != "" && (p[0] == '_' || s[0] == p[n - 1]) {
      if i :| 0 <= i <= |s[1..]| && Like(p[n..], s[1..][..i]) && Like(q, s[1..][i..]) {
        assert s[..i + 1][1..] == s[1..][..i] && s[..i + 1][0] == s[0];
        assert Like(p, s[..i + 1]) && Like(q, s[i + 1..]);
      }
    }
  }

  /** Escaping character by character: a backslash before each of the three metacharacters, nothing else. */
  lemma {:induction false} EscapeLaws(c: char, s: string, t: string)
    ensures EscapeLike("") == ""
    ensures EscapeLike([c]) == if c == '%' || c == '_' || c == '\\' then "\\" + [c] else [c]
    ensures EscapeLike(s + t) == EscapeLike(s) + EscapeLike(t)
  {
    assert [c][1..] == "" && [ESCAPE, c] == "\\" + [c];
    if s == "" {
      assert s + t == t;
    } else {
      assert (s + t)[1..] == s[1..] + t;
      EscapeLaws(c, s[1..], t);
    }
  }

  predicate Contains(s: string, needle: string) {
    exists i | 0 <= i <= |s| :: needle <= s[i..]
  }

  /** An escaped text is a literal prefix, whatever pattern follows it. */
  lemma {:induction false} EscapedIsLiteral(s: string, q: string, name: string)
    ensures Like(EscapeLike(s) + q, name) <==> s <= name && Like(q, name[|s|..])
  {
    if s == "" {
      assert EscapeLike(s) + q == q && name[0..] == name;
    } else {
      EscapedHead(s, q);
      if name != "" {
        EscapedIsLiteral(s[1..], q, name[1..]);
        assert s <= name <==> s[0] == name[0] && s[1..] <= name[1..];
        if s <= name { assert name[1..][|s[1..]|..] == name[|s|..]; }
      }
    }
  }

  lemma {:induction false} PercentSkips(q: string, name: string)
    ensures Like("%" + q, name) <==> exists i | 0 <= i <= |name| :: Like(q, name[i..])
  {
    var p := "%" + q;
    assert p[1..] == q;
    assert name[0..] == name;
    if name == "" {
    } else {
      PercentSkips(q, name[1..]);
      forall i | 1 <= i <= |name| ensures name[1..][i - 1..] == name[i..] {}
      if Like(p, name[1..]) {
        var i :| 0 <= i <= |name[1..]| && Like(q, name[1..][i..]);
        assert Like(q, name[i + 1..]);
      }
      if i :| 1 <= i <= |name| && Like(q, name[i..]) {
        assert Like(q, name[1..][i - 1..]);
      }
    }
  }

  lemma PercentMatchesAll(name: string)
    ensures Like("%", name)
  {
    if name == "" {
    } else {
      PercentMatchesAll(name[1..]);
    }
  }

  /** The escaped pattern means exactly "contains this text": no character of the search acts as a wildcard. */
  lemma EscapingMeansSubstring(search: string, name: string)
    ensures Like(SearchPattern(search), name) <==> Contains(name, search)
  {
    var q := EscapeLike(search) + "%";
    assert SearchPattern(search) == "%" + q;
    PercentSkips(q, name);
    forall i | 0 <= i <= |name| ensures Like(q, name[i..]) <==> search <= name[i..] {
      EscapedIsLiteral(search, "%", name[i..]);
      if search <= name[i..] { PercentMatchesAll(name[i..][|search|..]); }
    }
  }

  lemma {:induction false} EscapedWellFormed(s: string, q: string)
    requires WellFormed(q)
    ensures WellFormed(EscapeLike(s) + q)
  {
    if s == "" {
      assert EscapeLike(s) + q == q;
    } else {
      EscapedWellFormed(s[1..], q);
      EscapedHead(s, q);
    }
  }

  /** How the escaped text begins. */
  lemma {:induction false} EscapedHead(s: string, q: string)
    requires s != ""
    ensures var p, rest := EscapeLike(s) + q, EscapeLike(s[1..]) + q;
      if IsMeta(s[0]) then |p| >= 2 && p[0] == ESCAPE && p[1] == s[0] && p[2..] == rest
      else p != "" && p[0] == s[0] && p[1..] == rest
  {
    var head := if IsMeta(s[0]) then [ESCAPE, s[0]] else [s[0]];
    Prepended(head, EscapeLike(s[1..]), q);
  }

  lemma Prepended(head: string, tail: string, q: string)
    ensures (head + tail + q)[|head|..] == tail + q
    ensures forall i | 0 <= i < |head| :: (head + tail + q)[i] == head[i]
  {
  }

  /** The database never rejects a search. */
  lemma PatternAccepted(search: string)
    ensures WellFormed(SearchPattern(search))
  {
    EscapedWellFormed(search, "%");
    var p := SearchPattern(search);
    assert p[1..] == EscapeLike(search) + "%";
  }

  // ---------- case folding ----------

  function Fold(f: char -> char, s: string): string {
    seq(|s|, i requires 0 <= i < |s| => f(s[i]))
  }

  /** ILIKE compares folded texts. */
  predicate ILike(f: char -> char, p: string, s: string) {
    Like(Fold(f, p), Fold(f, s))
  }

  /** strings.Contains(strings.ToLower(name), strings.ToLower(search)). */
  predicate ContainsFolded(f: char -> char, name: string, search: string) {
    Contains(Fold(f, name), Fold(f, search))
  }

  /** Folding leaves the metacharacters alone and creates none. */
  ghost predicate KeepsMeta(f: char -> char) {
    forall c :: (IsMeta(c) ==> f(c) == c) && (IsMeta(f(c)) ==> IsMeta(c))
  }

  lemma FoldConcat(f: char -> char, s: string, t: string)
    ensures Fold(f, s + t) == Fold(f, s) + Fold(f, t)
  {
  }

  lemma {:induction false} FoldEscaped(f: char -> char, s: string)
    requires KeepsMeta(f)
    ensures Fold(f, EscapeLike(s)) == EscapeLike(Fold(f, s))
  {
    if s == "" {
    } else {
      FoldEscaped(f, s[1..]);
      var head := if IsMeta(s[0]) then [ESCAPE, s[0]] else [s[0]];
      FoldConcat(f, head, EscapeLike(s[1..]));
      assert Fold(f, s)[1..] == Fold(f, s[1..]);
      assert IsMeta(f(s[0])) <==> IsMeta(s[0]);
      assert IsMeta(ESCAPE) && f(ESCAPE) == ESCAPE;
    }
  }

  /** Folding works letter by letter. */
  lemma FoldIsLetterwise(f: char -> char, s: string, t: string)
    ensures |Fold(f, s)| == |s| && forall i | 0 <= i < |s| :: Fold(f, s)[i] == f(s[i])
    ensures Fold(f, s) == Fold(f, t) <==> |s| == |t| && forall i | 0 <= i < |s| :: f(s[i]) == f(t[i])
  {
    if Fold(f, s) == Fold(f, t) {
      forall i | 0 <= i < |s| ensures f(s[i]) == f(t[i]) { assert Fold(f, s)[i] == Fold(f, t)[i]; }
    }
  }

  /** Search does not look at case: texts that differ letter by letter only in what folding removes are found alike, and
      every name that contains the text as it was typed is found. */
  lemma CaseDoesNotMatter(f: char -> char, search: string, search': string, name: string, name': string)
    requires |search| == |search'| && forall i | 0 <= i < |search| :: f(search[i]) == f(search'[i])
    requires |name| == |name'| && forall i | 0 <= i < |name| :: f(name[i]) == f(name'[i])
    ensures ContainsFolded(f, name, search) <==> ContainsFolded(f, name', search')
    ensures Contains(name', search') ==> ContainsFolded(f, name, search)
  {
    FoldIsLetterwise(f, search, search');
    FoldIsLetterwise(f, name, name');
    if i :| 0 <= i <= |name'| && search' <= name'[i..] {
      assert Fold(f, search') <= Fold(f, name')[i..];
    }
  }

  /** Both backends find the same names. */
  lemma BackendsSearchAlike(f: char -> char, search: string, name: string)
    requires KeepsMeta(f)
    ensures ILike(f, SearchPattern(search), name) <==> ContainsFolded(f, name, search)
  {
    FoldEscaped(f, search);
    FoldConcat(f, "%" + EscapeLike(search), "%");
    FoldConcat(f, "%", EscapeLike(search));
    assert IsMeta('%') && Fold(f, "%") == "%";
    EscapingMeansSubstring(Fold(f, search), Fold(f, name));
  }
}
