/**
 * Custom-scheme links: routing a link to a page of the embedded web client
 * (`processCustomUrl`) and reading the key/value parameters of the transfer
 * and referral-code links (`goToTransfer`, `goToRefCode`).
 */
module CustomUrl {
  import opened WebUpdates

  // ---------------------------------------------------------------------
  // String helpers with the QString meaning

  function AsciiLower(c: char): char {
    if 'A' <= c <= 'Z' then (c as int - 'A' as int + 'a' as int) as char else c
  }

  /** `QString::toLower`, on ASCII letters. */
  function Lower(s: string): (r: string)
    ensures |r| == |s| && forall i :: 0 <= i < |s| ==> r[i] == AsciiLower(s[i])
  {
    seq(|s|, i requires 0 <= i < |s| => AsciiLower(s[i]))
  }

  /** `QString::indexOf`: the first position of `c`, or -1. */
  function IndexOf(s: string, c: char): (i: int)
    ensures -1 <= i < |s|
    ensures i >= 0 ==> s[i] == c && forall k :: 0 <= k < i ==> s[k] != c
    ensures i == -1 ==> forall k :: 0 <= k < |s| ==> s[k] != c
    decreases |s|
  {
    if s == [] then -1
    else if s[0] == c then 0
    else var j := IndexOf(s[1..], c); if j == -1 then -1 else j + 1
  }

  /** `QString::left`: the whole string for a negative or too large count. */
  function Left(s: string, n: int): (r: string)
    ensures r <= s
    ensures |r| == if 0 <= n < |s| then n else |s|
  {
    if n < 0 || n >= |s| then s else s[..n]
  }

  /** The scheme part as the source compares it: up to the first ':', lower-cased. */
  function SchemeOf(url: string): (r: string)
    ensures IndexOf(url, ':') >= 0 ==> |r| == IndexOf(url, ':')
    ensures IndexOf(url, ':') == -1 ==> r == Lower(url)
  {
    Lower(Left(url, IndexOf(url, ':')))
  }

  /** `url.mid(url.indexOf(':') + 1)`: the whole link when it has no ':'. */
  function AfterScheme(url: string): (r: string)
    ensures |r| == |url| - 1 - IndexOf(url, ':')
    ensures IndexOf(url, ':') == -1 ==> r == url
  {
    url[IndexOf(url, ':') + 1..]
  }

  /** The link is the text before its first ':', the ':', then what follows it. */
  lemma AfterSchemeSplits(url: string)
    requires IndexOf(url, ':') >= 0
    ensures url == Left(url, IndexOf(url, ':')) + ":" + AfterScheme(url)
  {
    var i := IndexOf(url, ':');
    assert url == url[..i] + [url[i]] + url[i + 1..];
  }

  /**
   * A link without ':' is compared whole as its scheme, and is routed whole
   * when that matches.
   */
  lemma NoColonKeepsWholeLink(url: string)
    requires forall i :: 0 <= i < |url| ==> url[i] != ':'
    ensures SchemeOf(url) == Lower(url) && AfterScheme(url) == url
  {
  }

  /** The link with its leading '/' characters removed. */
  function TrimSlashes(s: string): string
    decreases |s|
  {
    if s != [] && s[0] == '/' then TrimSlashes(s[1..]) else s
  }

  /** What is left is a suffix that does not start with '/', and only '/' was removed. */
  lemma {:induction false} TrimSlashesCharacterized(s: string)
    ensures var r := TrimSlashes(s);
      && |r| <= |s| && r == s[|s| - |r|..]
      && (forall i :: 0 <= i < |s| - |r| ==> s[i] == '/')
      && (r == [] || r[0] != '/')
    decreases |s|
  {
    if s != [] && s[0] == '/' {
      TrimSlashesCharacterized(s[1..]);
    }
  }

  /** `while (url.startsWith('/')) url.remove(0, 1);` */
  method StripLeadingSlashes(url: string) returns (rest: string)
    ensures rest == TrimSlashes(url)
  {
    rest := url;
    while |rest| > 0 && rest[0] == '/'
      invariant TrimSlashes(rest) == TrimSlashes(url)
    {
      rest := rest[1..];
    }
  }

  /** The length of the leading run of characters other than '/'. */
  function RunLength(s: string): (n: nat)
    ensures n <= |s|
    ensures forall i :: 0 <= i < n ==> s[i] != '/'
    ensures n < |s| ==> s[n] == '/'
    decreases |s|
  {
    if s == [] || s[0] == '/' then 0 else 1 + RunLength(s[1..])
  }

  /** `QString::split('/', QString::SkipEmptyParts)`. */
  function SplitPath(s: string): seq<string>
    decreases |s|
  {
    if s == [] then []
    else if s[0] == '/' then SplitPath(s[1..])
    else
      var n := RunLength(s);
      [s[..n]] + SplitPath(s[n..])
  }

  function Concat(parts: seq<string>): string {
    if parts == [] then [] else parts[0] + Concat(parts[1..])
  }

  function RemoveSlashes(s: string): string {
    if s == [] then [] else (if s[0] == '/' then [] else [s[0]]) + RemoveSlashes(s[1..])
  }

  lemma RemoveSlashesAppend(a: string, b: string)
    ensures RemoveSlashes(a + b) == RemoveSlashes(a) + RemoveSlashes(b)
  {
    if a == [] {
      assert a + b == b;
    } else {
      var h: string := if a[0] == '/' then [] else [a[0]];
      assert (a + b)[0] == a[0];
      assert (a + b)[1..] == a[1..] + b;
      assert RemoveSlashes(a + b) == h + RemoveSlashes(a[1..] + b);
      RemoveSlashesAppend(a[1..], b);
      assert RemoveSlashes(a) == h + RemoveSlashes(a[1..]);
      assert h + (RemoveSlashes(a[1..]) + RemoveSlashes(b)) == (h + RemoveSlashes(a[1..])) + RemoveSlashes(b);
    }
  }

  lemma {:induction false} NoSlashesUnchanged(s: string)
    requires forall i :: 0 <= i < |s| ==> s[i] != '/'
    ensures RemoveSlashes(s) == s
  {
    if s != [] { NoSlashesUnchanged(s[1..]); }
  }

  /**
   * The parts are non-empty, hold no '/', and together spell out the link
   * without its '/' characters.
   */
  lemma {:induction false} SplitPathParts(s: string)
    ensures forall k :: 0 <= k < |SplitPath(s)| ==> SplitPath(s)[k] != []
    ensures forall k, i :: 0 <= k < |SplitPath(s)| && 0 <= i < |SplitPath(s)[k]| ==> SplitPath(s)[k][i] != '/'
    ensures Concat(SplitPath(s)) == RemoveSlashes(s)
    decreases |s|
  {
    if s == [] {
    } else if s[0] == '/' {
      SplitPathParts(s[1..]);
    } else {
      var n := RunLength(s);
      SplitPathParts(s[n..]);
      NoSlashesUnchanged(s[..n]);
      assert s == s[..n] + s[n..];
      RemoveSlashesAppend(s[..n], s[n..]);
      var parts := SplitPath(s);
      assert parts == [s[..n]] + SplitPath(s[n..]);
      assert parts[1..] == SplitPath(s[n..]);
    }
  }

  /** Stripping the leading '/' characters first does not change the parts. */
  lemma {:induction false} SplitIgnoresLeadingSlashes(s: string)
    ensures SplitPath(TrimSlashes(s)) == SplitPath(s)
    decreases |s|
  {
    if s != [] && s[0] == '/' { SplitIgnoresLeadingSlashes(s[1..]); }
  }

  // ---------------------------------------------------------------------
  // Numbers in block links

  predicate IsDigit(c: char) { '0' <= c <= '9' }

  function DigitsValue(s: string): nat
    requires forall i :: 0 <= i < |s| ==> IsDigit(s[i])
    decreases |s|
  {
    if s == [] then 0
    else
      assert IsDigit(s[|s| - 1]);
      DigitsValue(s[..|s| - 1]) * 10 + (s[|s| - 1] as int - '0' as int)
  }

  const IntMin: int := -0x8000_0000
  const IntMax: int := 0x7fff_ffff

  /**
   * `QString::toInt`: an optional sign then decimal digits, within the range
   * of `int`; anything else fails.
   */
  function ParseInt(s: string): (r: Option<int>)
    ensures r.Some? ==> IntMin <= r.value <= IntMax
    ensures r.Some? ==> s != [] && IsDigit(s[|s| - 1])
  {
    var neg := |s| > 0 && s[0] == '-';
    var digits := if |s| > 0 && (s[0] == '-' || s[0] == '+') then s[1..] else s;
    if digits == [] || exists i :: 0 <= i < |digits| && !IsDigit(digits[i]) then None
    else
      var v: int := if neg then -(DigitsValue(digits) as int) else DigitsValue(digits);
      if IntMin <= v <= IntMax then Some(v) else None
  }

  /** `QString::number` of an unsigned value: decimal digits, no leading zero. */
  function Decimal(n: nat): (s: string)
    ensures s != [] && forall i :: 0 <= i < |s| ==> IsDigit(s[i])
    decreases n
  {
    if n < 10 then [('0' as int + n) as char] else Decimal(n / 10) + [('0' as int + n % 10) as char]
  }

  lemma {:induction false} DecimalValue(n: nat)
    ensures DigitsValue(Decimal(n)) == n
    decreases n
  {
    if n >= 10 {
      DecimalValue(n / 10);
      var s := Decimal(n);
      assert s[..|s| - 1] == Decimal(n / 10);
    }
  }

  /** Decimal text reads back as the number it renders. */
  lemma DecimalRoundTrip(n: nat)
    requires n <= IntMax
    ensures ParseInt(Decimal(n)) == Some(n)
  {
    DecimalValue(n);
  }

  /** The `uint32_t` the parsed `int` is stored into. */
  function ToUint32(v: int): (r: nat)
    ensures r < 0x1_0000_0000
    ensures (v - r) % 0x1_0000_0000 == 0
  {
    v % 0x1_0000_0000
  }

  /** A negative block number wraps: `blocks/-1` loads block 4294967295. */
  lemma NegativeBlockNumberWraps()
    ensures RouteSuffix(["blocks", "-1"]) == Some("/blocks/" + Decimal(4294967295))
  {
    BlocksSection();
    assert "-1"[1..] == "1";
    assert DigitsValue("1") == 1 by { assert "1"[..0] == ""; }
    assert ParseInt("-1") == Some(-1);
    assert ToUint32(-1) == 4294967295;
  }

  // ---------------------------------------------------------------------
  // Routing

  const SimpleSections: set<string> :=
    {"home", "delegates", "notes", "directory", "newcontact", "preferences", "console", "help"}

  /** The page address every routed link starts with. */
  function BaseUrl(endpoint: string): string {
    "http://" + endpoint + "/#"
  }

  /**
   * The section table: what is appended to the base page for the parts of a
   * link (nothing, for the bare page), or none when nothing is loaded.
   */
  function RouteSuffix(components: seq<string>): (r: Option<string>)
    requires components != []
    ensures r.Some? ==> r.value == [] || r.value[0] == '/'
    ensures r.None? <==> Lower(components[0]) !in SimpleSections + {"accounts", "blocks"}
  {
    var section := Lower(components[0]);
    if section in SimpleSections then Some("/" + section)
    else if section == "accounts" then
      if |components| == 1 then Some("/accounts")
      else if |components| == 2 then Some("/accounts/" + components[1])
      else Some("")
    else if section == "blocks" then
      if |components| == 1 then Some("/blocks")
      else if |components| == 2 then
        match ParseInt(components[1])
        case Some(v) => Some("/blocks/" + Decimal(ToUint32(v)))
        case None => Some("")
      else Some("")
    else None
  }

  /** The page to load for the parts of a link: the base page with the section's suffix. */
  function Route(components: seq<string>, endpoint: string): Option<string>
    requires components != []
  {
    match RouteSuffix(components)
    case None => None
    case Some(suffix) => Some(BaseUrl(endpoint) + suffix)
  }

  /** The page `processCustomUrl` loads for a link, or none. */
  function CustomUrlTarget(url: string, scheme: string, endpoint: string): Option<string> {
    if SchemeOf(url) != scheme then None
    else
      var components := SplitPath(TrimSlashes(AfterScheme(url)));
      if components == [] then None else Route(components, endpoint)
  }

  /** `processCustomUrl`; `scheme` is the application's custom scheme, `endpoint` the local HTTP server. */
  method ProcessCustomUrl(url: string, scheme: string, endpoint: string) returns (target: Option<string>)
    ensures target == CustomUrlTarget(url, scheme, endpoint)
  {
    if SchemeOf(url) != scheme {
      return None;
    }
    var rest := url[IndexOf(url, ':') + 1..];
    rest := StripLeadingSlashes(rest);
    var components := SplitPath(rest);
    if components == [] {
      return None;
    }
    target := Route(components, endpoint);
  }

  // ---------------------------------------------------------------------
  // What routing does

  lemma WrongSchemeLoadsNothing(url: string, scheme: string, endpoint: string)
    requires SchemeOf(url) != scheme
    ensures CustomUrlTarget(url, scheme, endpoint) == None
  {
  }

  lemma PrefixOfAppend(a: string, b: string)
    ensures |a + b| >= |a| && (a + b)[..|a|] == a
  {
  }

  /** Every page the section table yields is under the local endpoint's `/#`. */
  lemma RouteUnderBase(components: seq<string>, endpoint: string)
    requires components != []
    ensures var t := Route(components, endpoint);
      t.Some? ==> |t.value| >= |BaseUrl(endpoint)| && t.value[..|BaseUrl(endpoint)|] == BaseUrl(endpoint)
  {
    if RouteSuffix(components).Some? {
      PrefixOfAppend(BaseUrl(endpoint), RouteSuffix(components).value);
    }
  }

  /** Every page loaded is under the local endpoint's `/#`. */
  lemma TargetUnderEndpoint(url: string, scheme: string, endpoint: string)
    ensures var t := CustomUrlTarget(url, scheme, endpoint);
      t.Some? ==> |t.value| >= |BaseUrl(endpoint)| && t.value[..|BaseUrl(endpoint)|] == BaseUrl(endpoint)
  {
    var components := SplitPath(TrimSlashes(AfterScheme(url)));
    if SchemeOf(url) == scheme && components != [] {
      RouteUnderBase(components, endpoint);
    }
  }

  /** A link whose first part names no section loads nothing. */
  lemma UnknownSectionLoadsNothing(url: string, scheme: string, endpoint: string)
    requires SchemeOf(url) == scheme
    requires var components := SplitPath(TrimSlashes(AfterScheme(url)));
      components != [] && Lower(components[0]) !in SimpleSections + {"accounts", "blocks"}
    ensures CustomUrlTarget(url, scheme, endpoint) == None
  {
    var components := SplitPath(TrimSlashes(AfterScheme(url)));
    TargetFromParts(url, scheme, endpoint, components);
    assert RouteSuffix(components) == None;
  }

  /** A simple section loads `/` and the lower-cased section under the endpoint. */
  lemma SimpleSectionTarget(url: string, scheme: string, endpoint: string)
    requires SchemeOf(url) == scheme
    requires var components := SplitPath(TrimSlashes(AfterScheme(url)));
      components != [] && Lower(components[0]) in SimpleSections
    ensures var components := SplitPath(TrimSlashes(AfterScheme(url)));
      CustomUrlTarget(url, scheme, endpoint) == Some(BaseUrl(endpoint) + "/" + Lower(components[0]))
  {
    var components := SplitPath(TrimSlashes(AfterScheme(url)));
    assert BaseUrl(endpoint) + ("/" + Lower(components[0])) == BaseUrl(endpoint) + "/" + Lower(components[0]);
  }

  /**
   * `accounts` alone, `accounts/<name>` with the name as typed (it is not
   * lower-cased), and `blocks` alone.
   */
  lemma AccountsAndBlocksTarget(url: string, scheme: string, endpoint: string)
    requires SchemeOf(url) == scheme
    requires SplitPath(TrimSlashes(AfterScheme(url))) != []
    ensures var c := SplitPath(TrimSlashes(AfterScheme(url)));
      && (Lower(c[0]) == "accounts" && |c| == 1 ==> CustomUrlTarget(url, scheme, endpoint) == Some(BaseUrl(endpoint) + "/accounts"))
      && (Lower(c[0]) == "accounts" && |c| == 2 ==> CustomUrlTarget(url, scheme, endpoint) == Some(BaseUrl(endpoint) + "/accounts/" + c[1]))
      && (Lower(c[0]) == "blocks" && |c| == 1 ==> CustomUrlTarget(url, scheme, endpoint) == Some(BaseUrl(endpoint) + "/blocks"))
  {
    var c := SplitPath(TrimSlashes(AfterScheme(url)));
    TargetFromParts(url, scheme, endpoint, c);
    AccountsAndBlocksSuffix(c);
    if |c| == 2 {
      assert BaseUrl(endpoint) + ("/accounts/" + c[1]) == BaseUrl(endpoint) + "/accounts/" + c[1];
    }
  }

  lemma AccountsAndBlocksSuffix(c: seq<string>)
    requires c != []
    ensures Lower(c[0]) == "accounts" && |c| == 1 ==> RouteSuffix(c) == Some("/accounts")
    ensures Lower(c[0]) == "accounts" && |c| == 2 ==> RouteSuffix(c) == Some("/accounts/" + c[1])
    ensures Lower(c[0]) == "blocks" && |c| == 1 ==> RouteSuffix(c) == Some("/blocks")
  {
    BlocksSection();
    assert "accounts" !in SimpleSections;
  }

  /** Too many parts after `accounts`, or a block id that is not a number: the bare page is loaded. */
  lemma MalformedAccountsOrBlocksLoadBase(url: string, scheme: string, endpoint: string)
    requires SchemeOf(url) == scheme
    requires var components := SplitPath(TrimSlashes(AfterScheme(url)));
      components != [] &&
      ((Lower(components[0]) == "accounts" && |components| > 2) ||
       (Lower(components[0]) == "blocks" && |components| == 2 && ParseInt(components[1]).None?))
    ensures CustomUrlTarget(url, scheme, endpoint) == Some(BaseUrl(endpoint))
  {
    var components := SplitPath(TrimSlashes(AfterScheme(url)));
    TargetFromParts(url, scheme, endpoint, components);
    assert "accounts" !in SimpleSections && "blocks" !in SimpleSections;
    assert RouteSuffix(components) == Some("");
    assert BaseUrl(endpoint) + "" == BaseUrl(endpoint);
  }

  lemma RunLengthIs(s: string, n: nat)
    requires n <= |s|
    requires forall i :: 0 <= i < n ==> s[i] != '/'
    requires n < |s| ==> s[n] == '/'
    ensures RunLength(s) == n
  {
  }

  predicate SlashFree(w: string) {
    forall i :: 0 <= i < |w| ==> w[i] != '/'
  }

  /** A text without '/' is one part, or no part when it is empty. */
  lemma SplitSingle(w: string)
    requires SlashFree(w)
    ensures SplitPath(w) == if w == [] then [] else [w]
  {
    if w != [] {
      RunLengthIs(w, |w|);
      assert w[..|w|] == w && w[|w|..] == [];
    }
  }

  /**
   * Every '/' is a part boundary: splitting at one '/' and then splitting
   * both sides gives the parts of the whole. With `SplitSingle` this fixes
   * the parts of every text.
   */
  lemma {:induction false} SplitAtSlash(a: string, b: string)
    ensures SplitPath(a + "/" + b) == SplitPath(a) + SplitPath(b)
    decreases |a|
  {
    var s := a + "/" + b;
    if a == [] {
      assert s == "/" + b && s[1..] == b;
    } else if a[0] == '/' {
      assert s[0] == '/' && s[1..] == a[1..] + "/" + b;
      SplitAtSlash(a[1..], b);
    } else {
      var n := RunLength(a);
      RunLengthIs(s, n);
      assert s[..n] == a[..n];
      assert s[n..] == a[n..] + "/" + b;
      SplitAtSlash(a[n..], b);
      assert SplitPath(s) == [a[..n]] + (SplitPath(a[n..]) + SplitPath(b));
    }
  }

  lemma SplitWordThen(w: string, x: string)
    requires w != [] && SlashFree(w)
    ensures SplitPath(w + "/" + x) == [w] + SplitPath(x)
  {
    SplitAtSlash(w, x);
    SplitSingle(w);
  }

  lemma IndexOfAfter(p: string, c: char, rest: string)
    requires forall i :: 0 <= i < |p| ==> p[i] != c
    ensures IndexOf(p + [c] + rest, c) == |p|
  {
    var s := p + [c] + rest;
    var i := IndexOf(s, c);
    assert s[|p|] == c;
  }

  /** The target of a link whose scheme matches, given its parts. */
  lemma TargetFromParts(url: string, scheme: string, endpoint: string, components: seq<string>)
    requires SchemeOf(url) == scheme
    requires SplitPath(TrimSlashes(AfterScheme(url))) == components && components != []
    ensures CustomUrlTarget(url, scheme, endpoint) == Route(components, endpoint)
  {
  }

  /** A block number given in canonical decimal is carried through unchanged. */
  lemma BlockNumberCarried(scheme: string, endpoint: string, n: nat)
    requires n <= IntMax
    requires forall i :: 0 <= i < |scheme| ==> scheme[i] != ':'
    requires Lower(scheme) == scheme
    ensures CustomUrlTarget(scheme + ":blocks/" + Decimal(n), scheme, endpoint)
         == Some(BaseUrl(endpoint) + "/blocks/" + Decimal(n))
  {
    var d := Decimal(n);
    assert SlashFree(d);
    BlocksLinkParts(scheme, d);
    TargetFromParts(scheme + ":blocks/" + d, scheme, endpoint, ["blocks", d]);
    RouteBlockNumber(endpoint, n);
  }

  /** The parts of a `blocks` link with one slash-free id. */
  lemma BlocksLinkParts(scheme: string, d: string)
    requires forall i :: 0 <= i < |scheme| ==> scheme[i] != ':'
    requires Lower(scheme) == scheme
    requires d != [] && SlashFree(d)
    ensures SchemeOf(scheme + ":blocks/" + d) == scheme
    ensures SplitPath(TrimSlashes(AfterScheme(scheme + ":blocks/" + d))) == ["blocks", d]
  {
    var rest := "blocks/" + d;
    assert scheme + ":blocks/" + d == scheme + ":" + rest;
    SchemeAndRest(scheme, rest);
    assert TrimSlashes(rest) == rest;
    SplitWordThen("blocks", d);
    assert "blocks" + "/" + d == rest;
    SplitSingle(d);
  }

  /** A link written as the scheme, ':' and the rest splits back into those two. */
  lemma SchemeAndRest(scheme: string, rest: string)
    requires forall i :: 0 <= i < |scheme| ==> scheme[i] != ':'
    requires Lower(scheme) == scheme
    ensures SchemeOf(scheme + ":" + rest) == scheme && AfterScheme(scheme + ":" + rest) == rest
  {
    var url := scheme + ":" + rest;
    assert url == scheme + [':'] + rest;
    IndexOfAfter(scheme, ':', rest);
    assert Left(url, |scheme|) == scheme;
  }

  lemma RouteBlockNumber(endpoint: string, n: nat)
    requires n <= IntMax
    ensures Route(["blocks", Decimal(n)], endpoint) == Some(BaseUrl(endpoint) + "/blocks/" + Decimal(n))
  {
    SuffixBlockNumber(n);
    assert BaseUrl(endpoint) + ("/blocks/" + Decimal(n)) == BaseUrl(endpoint) + "/blocks/" + Decimal(n);
  }

  lemma SuffixBlockNumber(n: nat)
    requires n <= IntMax
    ensures RouteSuffix(["blocks", Decimal(n)]) == Some("/blocks/" + Decimal(n))
  {
    var c := ["blocks", Decimal(n)];
    BlocksSection();
    BlockLinkSuffix(c);
    DecimalRoundTrip(n);
    ToUint32InRange(n);
  }

  /** A non-negative `int` is stored into `uint32_t` unchanged. */
  lemma ToUint32InRange(v: int)
    requires 0 <= v <= IntMax
    ensures ToUint32(v) == v
  {
  }

  /** A two-part `blocks` link: the parsed id, stored as `uint32_t`, or the bare page. */
  lemma BlockLinkSuffix(components: seq<string>)
    requires |components| == 2 && Lower(components[0]) == "blocks"
    ensures RouteSuffix(components) ==
      match ParseInt(components[1])
      case Some(v) => Some("/blocks/" + Decimal(ToUint32(v)))
      case None => Some("")
  {
    BlocksSection();
  }

  lemma BlocksSection()
    ensures Lower("blocks") == "blocks" && "blocks" !in SimpleSections
  {
    assert Lower("blocks") == "blocks";
  }

  /** The link form the source's own comment lists (`xts://#/home`) routes nowhere: its first part is '#'. */
  lemma HashLinkFormLoadsNothing(endpoint: string)
    ensures CustomUrlTarget("xts://#/home", "xts", endpoint) == None
  {
    HashLinkScheme();
    HashLinkParts();
    TargetFromParts("xts://#/home", "xts", endpoint, ["#", "home"]);
    RouteHashSection(endpoint);
  }

  lemma HashLinkScheme()
    ensures SchemeOf("xts://#/home") == "xts" && AfterScheme("xts://#/home") == "//#/home"
  {
    var url := "xts://#/home";
    assert url == "xts" + [':'] + "//#/home";
    IndexOfAfter("xts", ':', "//#/home");
    assert Left(url, 3) == "xts";
    assert Lower("xts") == "xts";
  }

  lemma HashLinkParts()
    ensures SplitPath(TrimSlashes("//#/home")) == ["#", "home"]
  {
    HashLinkTrim();
    HashLinkSplit();
  }

  lemma HashLinkTrim()
    ensures TrimSlashes("//#/home") == "#/home"
  {
    assert TrimSlashes("//#/home") == TrimSlashes("/#/home") == TrimSlashes("#/home") == "#/home";
  }

  lemma HashLinkSplit()
    ensures SplitPath("#/home") == ["#", "home"]
  {
    SplitWordThen("#", "home");
    assert "#" + "/" + "home" == "#/home";
    SplitSingle("home");
  }

  lemma RouteHashSection(endpoint: string)
    ensures Route(["#", "home"], endpoint) == None
  {
    assert Lower("#") == "#";
    assert "#" !in SimpleSections;
  }

  // ---------------------------------------------------------------------
  // Key/value parameters of transfer links

  datatype TransferFields = TransferFields(sender: string, amount: string, asset: string, memo: string)

  const TransferKeys: set<string> := {"amount", "memo", "from", "asset"}

  /**
   * The loop of `goToTransfer` as a recursive definition: a key followed by a
   * value is consumed as a pair; a key left alone at the end stops; a key that
   * is not known is skipped alone, so its value is read as the next key.
   */
  function TransferParams(ps: seq<string>, f: TransferFields): TransferFields
    decreases |ps|
  {
    if |ps| < 2 then f
    else if ps[0] == "amount" then TransferParams(ps[2..], f.(amount := ps[1]))
    else if ps[0] == "memo" then TransferParams(ps[2..], f.(memo := ps[1]))
    else if ps[0] == "from" then TransferParams(ps[2..], f.(sender := ps[1]))
    else if ps[0] == "asset" then TransferParams(ps[2..], f.(asset := ps[1]))
    else TransferParams(ps[1..], f)
  }

  /**
   * `goToTransfer`: nothing happens with the wallet locked; otherwise the page
   * for a transfer to `components[0]`. The source indexes `components[0]`.
   */
  method GoToTransfer(walletUnlocked: bool, components: seq<string>) returns (page: Option<string>)
    requires walletUnlocked ==> |components| >= 1
    ensures !walletUnlocked ==> page == None
    ensures walletUnlocked ==>
      var f := TransferParams(if |components| >= 2 then components[2..] else [], TransferFields("", "", "", ""));
      page == Some("/transfer?from=" + f.sender + "&to=" + components[0] + "&amount=" + f.amount
                   + "&asset=" + f.asset + "&memo=" + f.memo)
  {
    if !walletUnlocked {
      return None;
    }
    var sender, amount, asset, memo := "", "", "", "";
    var parameters := if |components| >= 2 then components[2..] else [];
    ghost var all := parameters;
    while parameters != []
      invariant TransferParams(parameters, TransferFields(sender, amount, asset, memo))
             == TransferParams(all, TransferFields("", "", "", ""))
    {
      var parameterName := parameters[0];
      parameters := parameters[1..];
      if parameters == [] {
        break;
      }
      if parameterName == "amount" {
        amount := parameters[0];
        parameters := parameters[1..];
      } else if parameterName == "memo" {
        memo := parameters[0];
        parameters := parameters[1..];
      } else if parameterName == "from" {
        sender := parameters[0];
        parameters := parameters[1..];
      } else if parameterName == "asset" {
        asset := parameters[0];
        parameters := parameters[1..];
      }
    }
    page := Some("/transfer?from=" + sender + "&to=" + components[0] + "&amount=" + amount
                 + "&asset=" + asset + "&memo=" + memo);
  }

  /** Every field is left as it was or set to one of the parameters. */
  lemma {:induction false} TransferValuesFromParameters(ps: seq<string>, f: TransferFields)
    ensures var r := TransferParams(ps, f);
      && (r.sender == f.sender || r.sender in ps) && (r.amount == f.amount || r.amount in ps)
      && (r.asset == f.asset || r.asset in ps) && (r.memo == f.memo || r.memo in ps)
    decreases |ps|
  {
    if |ps| >= 2 {
      if ps[0] in TransferKeys {
        var f' := if ps[0] == "amount" then f.(amount := ps[1])
                  else if ps[0] == "memo" then f.(memo := ps[1])
                  else if ps[0] == "from" then f.(sender := ps[1])
                  else f.(asset := ps[1]);
        TransferValuesFromParameters(ps[2..], f');
        assert forall x :: x in ps[2..] ==> x in ps;
      } else {
        TransferValuesFromParameters(ps[1..], f);
        assert forall x :: x in ps[1..] ==> x in ps;
      }
    }
  }

  /** An unknown key does not consume a value: what follows it is read as a key. */
  lemma TransferUnknownKeyShifts(k: string, rest: seq<string>, f: TransferFields)
    requires k !in TransferKeys && |rest| >= 1
    ensures TransferParams([k] + rest, f) == TransferParams(rest, f)
  {
    assert ([k] + rest)[1..] == rest;
  }

  /**
   * Two parameter lists: an unknown key `note` makes `amount` the next key, and
   * a key left alone at the end is ignored.
   */
  lemma TransferExample()
    ensures TransferParams(["note", "amount", "5"], TransferFields("", "", "", "")).amount == "5"
    ensures TransferParams(["from", "alice", "amount"], TransferFields("", "", "", "")) == TransferFields("alice", "", "", "")
  {
    TransferUnknownKeyShifts("note", ["amount", "5"], TransferFields("", "", "", ""));
  }

  // ---------------------------------------------------------------------
  // Key/value parameters of referral-code links

  datatype RefCodeFields = RefCodeFields(faucet: string, code: string)

  /**
   * The loop of `goToRefCode`: every key consumes the element after it, known
   * or not. The list must pair up: `takeFirst` and `pop_front` on an empty
   * list are undefined in the source.
   */
  function RefCodeParams(ps: seq<string>, f: RefCodeFields): RefCodeFields
    requires |ps| % 2 == 0
    decreases |ps|
  {
    if ps == [] then f
    else if ps[0] == "faucet" then RefCodeParams(ps[2..], f.(faucet := ps[1]))
    else if ps[0] == "code" then RefCodeParams(ps[2..], f.(code := ps[1]))
    else RefCodeParams(ps[2..], f)
  }

  /** The parameters of a referral link pair up: `components[1..]` has even length. */
  predicate RefCodeWellFormed(components: seq<string>) {
    |components| <= 1 || (|components| - 1) % 2 == 0
  }

  /** `goToRefCode`: nothing happens with the wallet locked; otherwise the referral-code page. */
  method GoToRefCode(walletUnlocked: bool, components: seq<string>) returns (page: Option<string>)
    requires walletUnlocked ==> RefCodeWellFormed(components)
    ensures !walletUnlocked ==> page == None
    ensures walletUnlocked ==>
      var f := RefCodeParams(if |components| >= 1 then components[1..] else [], RefCodeFields("", ""));
      page == Some("/referral_code?faucet=" + f.faucet + "&code=" + f.code)
  {
    if !walletUnlocked {
      return None;
    }
    var faucet, code := "", "";
    var parameters := if |components| >= 1 then components[1..] else [];
    ghost var all := parameters;
    while parameters != []
      invariant |parameters| % 2 == 0
      invariant RefCodeParams(parameters, RefCodeFields(faucet, code)) == RefCodeParams(all, RefCodeFields("", ""))
    {
      var parameterName := parameters[0];
      parameters := parameters[1..];
      if parameterName == "faucet" {
        faucet := parameters[0];
      } else if parameterName == "code" {
        code := parameters[0];
      }
      parameters := parameters[1..];
    }
    page := Some("/referral_code?faucet=" + faucet + "&code=" + code);
  }

  /** Each referral field is left as it was or set to one of the parameters. */
  lemma {:induction false} RefCodeValuesFromParameters(ps: seq<string>, f: RefCodeFields)
    requires |ps| % 2 == 0
    ensures var r := RefCodeParams(ps, f);
      (r.faucet == f.faucet || r.faucet in ps) && (r.code == f.code || r.code in ps)
    decreases |ps|
  {
    if ps != [] {
      var f' := if ps[0] == "faucet" then f.(faucet := ps[1])
                else if ps[0] == "code" then f.(code := ps[1])
                else f;
      RefCodeValuesFromParameters(ps[2..], f');
      assert forall x :: x in ps[2..] ==> x in ps;
    }
  }

  /** Unlike transfer links, an unknown key here consumes its value. */
  lemma RefCodeUnknownKeyPops(k: string, v: string, rest: seq<string>, f: RefCodeFields)
    requires k != "faucet" && k != "code" && |rest| % 2 == 0
    ensures RefCodeParams([k, v] + rest, f) == RefCodeParams(rest, f)
  {
    assert ([k, v] + rest)[2..] == rest;
  }

  /** The same shape of list read both ways: the skipped key's value is a key in one and a value in the other. */
  lemma UnknownKeyContrast()
    ensures TransferParams(["x", "amount", "amount", "7"], TransferFields("", "", "", "")).amount == "amount"
    ensures RefCodeParams(["x", "code", "code", "7"], RefCodeFields("", "")).code == "7"
  {
    TransferUnknownKeyShifts("x", ["amount", "amount", "7"], TransferFields("", "", "", ""));
    RefCodeUnknownKeyPops("x", "code", ["code", "7"], RefCodeFields("", ""));
  }
}
