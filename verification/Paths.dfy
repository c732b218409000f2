/** Route labels: identifiers in a path are replaced segment by segment, byte by byte. */
module Paths {

  const ID: string := "{id}"
  const UNKNOWN: string := "unknown"

  const KNOWN_ROUTES: set<string> := {
    "/", "/healthz", "/readyz", "/metrics", "/articles", "/articles/{id}", "/cart", "/cart/remove", "/cart/{id}",
    "/orders", "/checkout", "/payment/pending", "/payment/verify", "/admin/login", "/admin/logout",
    "/admin/articles", "/admin/articles/new", "/admin/articles/{id}/edit", "/admin/articles/{id}/delete",
    "/admin/orders"
  }

  predicate IsIDSegment(s: string) {
    if s == "" then false
    else if |s| == 36 && s[8] == '-' && s[13] == '-' then true
    else forall i | 0 <= i < |s| :: '0' <= s[i] <= '9'
  }

  function Rule(segment: string): string {
    if IsIDSegment(segment) then ID else segment
  }

  // ---------- the meaning: split, apply the rule to each segment, join ----------

  predicate NoSlash(s: string) {
    forall i | 0 <= i < |s| :: s[i] != '/'
  }

  function Split(s: string): (parts: seq<string>)
    ensures parts != [] && forall i | 0 <= i < |parts| :: NoSlash(parts[i])
  {
    if s == "" then [""]
    else
      var rest := Split(s[1..]);
      if s[0] == '/' then [""] + rest else [[s[0]] + rest[0]] + rest[1..]
  }

  function Join(parts: seq<string>): string
    requires parts != []
  {
    if |parts| == 1 then parts[0] else parts[0] + "/" + Join(parts[1..])
  }

  function Rules(parts: seq<string>): (r: seq<string>)
    ensures |r| == |parts|
  {
    seq(|parts|, i requires 0 <= i < |parts| => Rule(parts[i]))
  }

  function Normal(path: string): string
  {
    Join(Rules(Split(path)))
  }

  function Slashes(s: string): nat {
    if s == "" then 0 else Slashes(s[1..]) + if s[0] == '/' then 1 else 0
  }

  // ---------- the loop ----------

  /** One pass over the bytes with an output buffer and the segment under construction. */
  method NormalizeIDs(path: string) returns (out: string)
    ensures out == Normal(path)
  {
    out := "";
    var segment := "";
    Whole("", path);
    for i := 0 to |path|
      invariant NoSlash(segment)
      invariant Normal(path) == out + Normal(segment + path[i..])
    {
      hide Normal, IsIDSegment;
      if path[i] == '/' {
        var flushed := if IsIDSegment(segment) then ID else segment;
        FlushStep(segment, path, i);
        assert out + (flushed + "/" + Normal("" + path[i + 1..])) == (out + flushed + "/") + Normal("" + path[i + 1..]);
        out := out + flushed + "/";
        segment := "";
      } else {
        Resume(segment, path, i);
        segment := segment + [path[i]];
      }
    }
    Whole(path[|path|..], segment);
    SplitSegment(segment);
    out := out + (if IsIDSegment(segment) then ID else segment);
  }

  lemma FlushStep(segment: string, path: string, i: nat)
    requires NoSlash(segment) && i < |path| && path[i] == '/'
    ensures Normal(segment + path[i..]) == Rule(segment) + "/" + Normal("" + path[i + 1..])
  {
    Resume(segment, path, i);
    NormalSegment(segment, path[i + 1..]);
  }

  lemma Whole(empty: string, s: string)
    requires empty == ""
    ensures empty + s[0..] == s && s + empty == s
  {
  }

  lemma Resume(segment: string, path: string, i: nat)
    requires i < |path|
    ensures segment + path[i..] == segment + [path[i]] + path[i + 1..]
    ensures "" + path[i + 1..] == path[i + 1..]
  {
    assert path[i..] == [path[i]] + path[i + 1..];
  }

  lemma {:induction false} SplitSegment(s: string)
    requires NoSlash(s)
    ensures Split(s) == [s] && Normal(s) == Rule(s)
  {
    if s == "" {
    } else {
      SplitSegment(s[1..]); assert s == [s[0]] + s[1..];
    }
  }

  lemma {:induction false} SplitAtSlash(s: string, rest: string)
    requires NoSlash(s)
    ensures Split(s + "/" + rest) == [s] + Split(rest)
  {
    var all := s + "/" + rest;
    if s == "" {
      assert all[1..] == rest;
    } else {
      assert all[1..] == s[1..] + "/" + rest;
      SplitAtSlash(s[1..], rest);
      assert [s[0]] + s[1..] == s;
      assert ([s[1..]] + Split(rest))[1..] == Split(rest);
    }
  }

  lemma {:induction false} NormalSegment(s: string, rest: string)
    requires NoSlash(s)
    ensures Normal(s + "/" + rest) == Rule(s) + "/" + Normal(rest)
  {
    SplitAtSlash(s, rest);
    JoinRules(s, Split(rest));
  }

  lemma JoinRules(s: string, parts: seq<string>)
    requires parts != []
    ensures Join(Rules([s] + parts)) == Rule(s) + "/" + Join(Rules(parts))
  {
    assert Rules([s] + parts) == [Rule(s)] + Rules(parts);
    assert ([Rule(s)] + Rules(parts))[1..] == Rules(parts);
  }

  // ---------- what normalising keeps ----------

  /** Splitting and joining lose nothing, in both directions. */
  lemma {:induction false} JoinOfSplit(s: string)
    ensures Join(Split(s)) == s
  {
    if s == "" {
    } else {
      JoinOfSplit(s[1..]);
      var rest := Split(s[1..]);
      assert s == [s[0]] + s[1..];
      if s[0] == '/' {
        assert ([""] + rest)[1..] == rest;
      } else {
        assert ([[s[0]] + rest[0]] + rest[1..])[1..] == rest[1..];
      }
    }
  }

  lemma {:induction false} SplitOfJoin(parts: seq<string>)
    requires parts != [] && forall i | 0 <= i < |parts| :: NoSlash(parts[i])
    ensures Split(Join(parts)) == parts
  {
    assert NoSlash(parts[0]);
    if |parts| == 1 {
      SplitSegment(parts[0]);
    } else {
      forall i | 0 <= i < |parts[1..]| ensures NoSlash(parts[1..][i]) { assert NoSlash(parts[i + 1]); }
      SplitOfJoin(parts[1..]);
      SplitAtSlash(parts[0], Join(parts[1..]));
    }
  }

  lemma RuleIsStable(s: string)
    requires NoSlash(s)
    ensures NoSlash(Rule(s)) && Rule(Rule(s)) == Rule(s)
  {
    assert ID[0] == '{';
  }

  /** The segments of the label are the rewritten segments of the path, one for one. */
  lemma NormalSplits(path: string)
    ensures Split(Normal(path)) == Rules(Split(path))
  {
    var parts := Split(path);
    forall i | 0 <= i < |parts| ensures NoSlash(Rules(parts)[i]) { RuleIsStable(parts[i]); }
    SplitOfJoin(Rules(parts));
  }

  lemma SlashesCountSegments(s: string)
    ensures |Split(s)| == Slashes(s) + 1
  {
  }

  /** Normalising keeps the number of slashes and changes nothing the second time. */
  lemma NormalKeepsShape(path: string)
    ensures Slashes(Normal(path)) == Slashes(path)
    ensures Normal(Normal(path)) == Normal(path)
  {
    var parts := Split(path);
    NormalSplits(path);
    SlashesCountSegments(path);
    SlashesCountSegments(Normal(path));
    forall i | 0 <= i < |parts| ensures Rules(Rules(parts))[i] == Rules(parts)[i] { RuleIsStable(parts[i]); }
    assert Rules(Rules(parts)) == Rules(parts);
  }

  /** Two paths get one label exactly when they have the same segments up to identifiers. */
  lemma SameLabelIff(p: string, q: string)
    ensures Normal(p) == Normal(q) <==> Rules(Split(p)) == Rules(Split(q))
  {
    NormalSplits(p);
    NormalSplits(q);
  }

  function SanitizePath(path: string): string {
    if Normal(path) in KNOWN_ROUTES then Normal(path) else UNKNOWN
  }

  /** A label is one of the known routes or "unknown", and sanitising a normalised path or a label changes nothing. */
  lemma SanitizeIsStable(path: string)
    ensures SanitizePath(path) in KNOWN_ROUTES + {UNKNOWN}
    ensures SanitizePath(Normal(path)) == SanitizePath(path)
    ensures SanitizePath(SanitizePath(path)) == SanitizePath(path)
  {
    NormalKeepsShape(path);
    UnknownIsNormal();
  }

  lemma UnknownIsNormal()
    ensures Normal(UNKNOWN) == UNKNOWN
  {
    assert UNKNOWN[0] == 'u';
    SplitSegment(UNKNOWN);
  }

  // ---------- the identifiers the shop uses ----------

  predicate IsHex(c: char) {
    '0' <= c <= '9' || 'a' <= c <= 'f' || 'A' <= c <= 'F'
  }

  predicate IsUuid(s: string) {
    |s| == 36 && forall i | 0 <= i < 36 :: if i in {8, 13, 18, 23} then s[i] == '-' else IsHex(s[i])
  }

  function Digit(d: nat): char
    requires d < 10
  {
    '0' + d as char
  }

  function Decimal(n: nat): string {
    (if n < 10 then "" else Decimal(n / 10)) + [Digit(n % 10)]
  }

  lemma {:induction false} DecimalIsID(n: nat)
    ensures IsIDSegment(Decimal(n))
    ensures forall i | 0 <= i < |Decimal(n)| :: '0' <= Decimal(n)[i] <= '9'
  {
    if n < 10 {
    } else {
      DecimalIsID(n / 10);
    }
  }

  ghost predicate IsIdentifier(s: string) {
    IsUuid(s) || exists n: nat :: s == Decimal(n)
  }

  lemma IdentifierRule(id: string)
    requires IsIdentifier(id)
    ensures NoSlash(id) && Rule(id) == ID
  {
    if !IsUuid(id) {
      var n: nat :| id == Decimal(n);
      DecimalIsID(n);
    }
  }

  /** A fixed part of a route. */
  predicate IsWord(s: string) {
    NoSlash(s) && 0 < |s| < 36 && 'a' <= s[0] <= 'z'
  }

  lemma {:induction false} AfterSlash(rest: string)
    ensures Normal("/" + rest) == "/" + Normal(rest)
  {
    assert "" + "/" + rest == "/" + rest;
    NormalSegment("", rest);
  }

  lemma {:induction false} LastSegment(id: string, act: string)
    requires NoSlash(id) && Rule(id) == ID && IsWord(act)
    ensures Normal(id) == ID && Normal(act) == act && Normal(id + "/" + act) == ID + "/" + act
  {
    SplitSegment(id);
    SplitSegment(act);
    NormalSegment(id, act);
  }

  lemma PublicLabel(word: string, id: string)
    requires IsWord(word) && NoSlash(id) && Rule(id) == ID
    ensures Normal("/" + word + "/" + id) == "/" + word + "/" + ID
  {
    SplitSegment(id);
    NormalSegment(word, id);
    AfterSlash(word + "/" + id);
    Nested(word, id, ID);
  }

  lemma Nested(word: string, p: string, q: string)
    ensures "/" + word + "/" + p == "/" + (word + "/" + p)
    ensures "/" + word + "/" + q == "/" + (word + "/" + q)
  {
  }

  lemma AdminLabel(id: string, act: string)
    requires NoSlash(id) && Rule(id) == ID && IsWord(act)
    ensures Normal("/admin" + "/" + ("articles" + "/" + (id + "/" + act))) ==
      "/admin" + "/" + ("articles" + "/" + (ID + "/" + act))
  {
    hide Normal;
    LastSegment(id, act);
    NormalSegment("articles", id + "/" + act);
    var rest := "articles" + "/" + (id + "/" + act);
    NormalSegment("admin", rest);
    AfterSlash("admin" + "/" + rest);
    Nested("admin", rest, Normal(rest));
    WordRule("admin");
    WordRule("articles");
    assert "/" + "admin" == "/admin";
  }

  lemma WordRule(s: string)
    requires IsWord(s)
    ensures Rule(s) == s
  {
  }

  lemma AdminPath(id: string, act: string)
    ensures "/admin/articles/" + id + "/" + act == "/admin" + "/" + ("articles" + "/" + (id + "/" + act))
  {
  }

  lemma AdminSanitized(id: string, act: string)
    requires NoSlash(id) && Rule(id) == ID && (act == "edit" || act == "delete")
    ensures SanitizePath("/admin/articles/" + id + "/" + act) == "/admin/articles/{id}/" + act
  {
    hide Normal;
    AdminPath(id, act);
    AdminPath(ID, act);
    AdminLabel(id, act);
    assert "/admin/articles/" + ID + "/" + act == "/admin/articles/{id}/" + act;
    if act == "edit" { assert "/admin/articles/{id}/" + act == "/admin/articles/{id}/edit"; }
    else { assert "/admin/articles/{id}/" + act == "/admin/articles/{id}/delete"; }
  }

  /** Requests for any two articles share one label, whatever their identifiers. */
  lemma ArticlesShareLabels(id: string, act: string)
    requires IsIdentifier(id) && (act == "edit" || act == "delete")
    ensures SanitizePath("/articles/" + id) == "/articles/{id}"
    ensures SanitizePath("/cart/" + id) == "/cart/{id}"
    ensures SanitizePath("/admin/articles/" + id + "/" + act) == "/admin/articles/{id}/" + act
  {
    hide Normal;
    IdentifierRule(id);
    PublicLabel("articles", id);
    PublicLabel("cart", id);
    assert "/" + "articles" + "/" + id == "/articles/" + id && "/" + "articles" + "/" + ID == "/articles/{id}";
    assert "/" + "cart" + "/" + id == "/cart/" + id && "/" + "cart" + "/" + ID == "/cart/{id}";
    AdminSanitized(id, act);
  }

  // ---------- exactly what is recognised ----------

  function Zeros(k: nat): string {
    if k == 0 then "" else Zeros(k - 1) + "0"
  }

  /** A number, written with leading zeros or without. */
  ghost predicate IsNumeral(s: string) {
    exists k: nat, n: nat :: s == Zeros(k) + Decimal(n)
  }

  /** A text of the length of a UUID with its first two dashes; what else it contains is not looked at. */
  predicate LooksLikeUuid(s: string) {
    |s| == 36 && s[8] == '-' && s[13] == '-'
  }

  predicate AllDigits(s: string) {
    s != "" && forall i | 0 <= i < |s| :: '0' <= s[i] <= '9'
  }

  lemma {:induction false} ZerosAreDigits(k: nat)
    ensures forall i | 0 <= i < |Zeros(k)| :: Zeros(k)[i] == '0'
  {
    if k == 0 {
    } else {
      ZerosAreDigits(k - 1);
    }
  }

  lemma NumeralIsDigits(s: string)
    requires IsNumeral(s)
    ensures AllDigits(s)
  {
    var k: nat, n: nat :| s == Zeros(k) + Decimal(n);
    ZerosAreDigits(k);
    DecimalIsID(n);
  }

  lemma DecimalAppend(m: nat, d: nat)
    requires m > 0 && d < 10
    ensures Decimal(10 * m + d) == Decimal(m) + Decimal(d)
  {
    assert (10 * m + d) / 10 == m && (10 * m + d) % 10 == d;
  }

  lemma DigitIsDecimal(d: nat)
    requires d < 10
    ensures Decimal(d) == [Digit(d)]
  {
    assert d % 10 == d && "" + [Digit(d)] == [Digit(d)];
  }

  lemma DigitOf(c: char) returns (d: nat)
    requires '0' <= c <= '9'
    ensures d < 10 && Digit(d) == c
  {
    d := (c - '0') as int;
  }

  lemma NumeralAppend(k: nat, m: nat, d: nat)
    requires d < 10
    ensures IsNumeral(Zeros(k) + Decimal(m) + [Digit(d)])
  {
    hide IsNumeral;
    DigitIsDecimal(d);
    if m == 0 {
      DigitIsDecimal(0);
      assert Zeros(k) + Decimal(m) + [Digit(d)] == Zeros(k + 1) + Decimal(d);
      NumeralOf(k + 1, d);
    } else {
      DecimalAppend(m, d);
      assert Zeros(k) + Decimal(m) + [Digit(d)] == Zeros(k) + Decimal(10 * m + d);
      NumeralOf(k, 10 * m + d);
    }
  }

  lemma NumeralOf(k: nat, n: nat)
    ensures IsNumeral(Zeros(k) + Decimal(n))
  {
  }

  lemma {:induction false} DigitsAreNumeral(s: string)
    requires AllDigits(s)
    ensures IsNumeral(s)
    decreases |s|
  {
    hide Decimal;
    var t, c := s[..|s| - 1], s[|s| - 1];
    assert s == t + [c];
    var d := DigitOf(c);
    if t == "" {
      DigitIsDecimal(d);
      assert s == Zeros(0) + Decimal(d);
    } else {
      DigitsAreNumeral(t);
      var k: nat, m: nat :| t == Zeros(k) + Decimal(m);
      NumeralAppend(k, m, d);
    }
  }

  /** A segment is taken for an identifier exactly when it is a number or looks like a UUID; every other segment stays
      as it is. */
  lemma IdentifiersExactly(s: string)
    ensures Rule(s) == (if IsNumeral(s) || LooksLikeUuid(s) then "{id}" else s)
  {
    if IsNumeral(s) { NumeralIsDigits(s); }
    if AllDigits(s) { DigitsAreNumeral(s); }
  }

  /** An article request gets the article label exactly when its last segment is a number, looks like a UUID, or is the
      placeholder itself; any other single segment makes the path unknown. */
  lemma ArticleLabelIff(s: string)
    requires NoSlash(s)
    ensures SanitizePath("/articles/" + s) ==
      if IsNumeral(s) || LooksLikeUuid(s) || s == "{id}" then "/articles/{id}" else "unknown"
  {
    hide Normal, IsIDSegment;
    IdentifiersExactly(s);
    ArticlePath(s);
    OnlyArticleRoute(Rule(s));
    assert "/articles/" + "{id}" == "/articles/{id}";
  }

  lemma ArticlePath(s: string)
    requires NoSlash(s)
    ensures Normal("/articles/" + s) == "/articles/" + Rule(s)
  {
    hide Normal, Rule;
    SplitSegment(s);
    NormalSegment("articles", s);
    AfterSlash("articles" + "/" + s);
    WordRule("articles");
    assert "/articles/" + s == "/" + ("articles" + "/" + s);
    assert "/articles/" + Rule(s) == "/" + ("articles" + "/" + Rule(s));
  }

  /** No other known route lies directly below /articles. */
  lemma OnlyArticleRoute(rest: string)
    ensures "/articles/" + rest in KNOWN_ROUTES <==> rest == "{id}"
  {
    var path := "/articles/" + rest;
    assert path[..10] == "/articles/" && path[10..] == rest;
    assert "/articles/{id}"[10..] == "{id}" && "/articles/" + "{id}" == "/articles/{id}";
    assert path[1] == 'a' && path[2] == 'r' && path[9] == '/';
  }

  // ---------- fixed routes ----------

  predicate IsPlain(s: string) {
    |s| < 36 && forall i | 0 <= i < |s| :: !('0' <= s[i] <= '9')
  }

  lemma {:induction false} SegmentsArePlain(s: string)
    requires IsPlain(s)
    ensures forall i | 0 <= i < |Split(s)| :: IsPlain(Split(s)[i]) && |Split(s)[i]| <= |s|
  {
    if s == "" {
    } else {
      assert IsPlain(s[1..]);
      SegmentsArePlain(s[1..]);
      var rest := Split(s[1..]);
      assert IsPlain(rest[0]) && |rest[0]| <= |s| - 1;
    }
  }

  /** A path without digits, too short for a UUID, is its own label when it is a known route. */
  lemma PlainStays(path: string)
    requires IsPlain(path)
    ensures Normal(path) == path
  {
    SegmentsArePlain(path);
    var parts := Split(path);
    forall i | 0 <= i < |parts| ensures Rules(parts)[i] == parts[i] {
      if parts[i] != "" { assert !('0' <= parts[i][0] <= '9'); }
    }
    assert Rules(parts) == parts;
    JoinOfSplit(path);
  }

  lemma FixedRoute(path: string)
    requires IsPlain(path) && path in KNOWN_ROUTES
    ensures SanitizePath(path) == path
  {
    PlainStays(path);
  }

  /** The pages of the shop keep their own labels. */
  lemma ShopRoutes()
    ensures SanitizePath("/") == "/" && SanitizePath("/articles") == "/articles"
    ensures SanitizePath("/cart") == "/cart" && SanitizePath("/cart/remove") == "/cart/remove"
    ensures SanitizePath("/orders") == "/orders" && SanitizePath("/checkout") == "/checkout"
    ensures SanitizePath("/payment/pending") == "/payment/pending"
    ensures SanitizePath("/payment/verify") == "/payment/verify"
  {
    hide SanitizePath;
    FixedRoute("/");
    FixedRoute("/articles");
    FixedRoute("/cart");
    FixedRoute("/cart/remove");
    FixedRoute("/orders");
    FixedRoute("/checkout");
    FixedRoute("/payment/pending");
    FixedRoute("/payment/verify");
  }

  /** So do the pages of its operators. */
  lemma OperatorRoutes()
    ensures SanitizePath("/healthz") == "/healthz" && SanitizePath("/readyz") == "/readyz"
    ensures SanitizePath("/metrics") == "/metrics" && SanitizePath("/admin/login") == "/admin/login"
    ensures SanitizePath("/admin/logout") == "/admin/logout" && SanitizePath("/admin/orders") == "/admin/orders"
    ensures SanitizePath("/admin/articles") == "/admin/articles"
    ensures SanitizePath("/admin/articles/new") == "/admin/articles/new"
  {
    hide SanitizePath;
    FixedRoute("/healthz");
    FixedRoute("/readyz");
    FixedRoute("/metrics");
    FixedRoute("/admin/login");
    FixedRoute("/admin/logout");
    FixedRoute("/admin/orders");
    FixedRoute("/admin/articles");
    FixedRoute("/admin/articles/new");
  }
}
