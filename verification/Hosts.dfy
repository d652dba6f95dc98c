/** Host headers and host patterns: normalisation, matching and specificity. */
module Hosts {
  import opened Options
  import opened Text

  const BRACKETS: set<char> := {'[', ']'}

  /** The host part of Go's `net.SplitHostPort`; None where it reports an error. */
  function SplitHostPort(s: string): Option<string> {
    match LastIndexOf(s, ':')
    case None => None
    case Some(colon) =>
      if s[0] == '[' then
        match IndexOf(s, ']')
        case None => None
        case Some(end) =>
          if end + 1 == |s| || end + 1 != colon then None
          else if '[' in s[1..] || ']' in s[end + 1..] then None
          else Some(s[1..end])
      else if ':' in s[..colon] || '[' in s || ']' in s then None
      else Some(s[..colon])
  }

  function TrimDot(s: string): (r: string)
    ensures |r| <= |s|
  {
    if |s| > 1 && s[|s| - 1] == '.' then s[..|s| - 1] else s
  }

  function WithoutPort(h: string): string {
    match SplitHostPort(h) case Some(host) => host case None => h
  }

  function NormalizeHost(raw: string): string {
    var h := Lower(Trim(raw, SPACE));
    if h == "" then "" else TrimDot(Trim(WithoutPort(h), BRACKETS))
  }

  function HostSpecificity(pattern: string): int {
    if pattern == "" then 0 else if "*." <= pattern then 1 else 2
  }

  /** How an already normalised, non-empty pattern covers a host. */
  predicate Covers(pattern: string, host: string) {
    pattern == host ||
    ("*" <= pattern && |host| > |pattern| - 1 && HasSuffix(host, pattern[1..]))
  }

  predicate HostMatches(pattern: string, host: string) {
    pattern == "" || Covers(NormalizeHost(pattern), host)
  }

  /********** Spellings of one host **********/

  /**
   * The ways section 3.2.2 of RFC 3986 lets a client write one host: a registered name
   * with an optional trailing dot and port, or a bracketed address with an optional port.
   * `BareAddress` is the unbracketed address that normalisation itself produces.
   */
  datatype Spelling =
    | Name(body: string, dot: bool, port: Option<string>)
    | Bracketed(body: string, port: Option<string>)
    | BareAddress(body: string)

  ghost predicate Digits(s: string) {
    forall i :: 0 <= i < |s| ==> '0' <= s[i] <= '9'
  }

  ghost predicate NoFinalDot(s: string) {
    s != "" ==> s[|s| - 1] != '.'
  }

  ghost predicate Plain(s: string) {
    NoneIn(s, SPACE) && NoneIn(s, BRACKETS)
  }

  /** At least two colons, which every IPv6 address has. */
  ghost predicate ManyColons(s: string) {
    exists i, j :: 0 <= i < j < |s| && s[i] == ':' && s[j] == ':'
  }

  /** Port and brackets can be told from the rest. */
  ghost predicate Readable(sp: Spelling) {
    && Plain(sp.body)
    && (sp.Name? ==> Lacks(sp.body, ':'))
    && (sp.BareAddress? ==> ManyColons(sp.body))
    && (!sp.BareAddress? ==> Port(sp.port))
  }

  ghost predicate WellFormed(sp: Spelling) {
    && Readable(sp)
    && NoFinalDot(sp.body)
    && (sp.Name? && sp.dot ==> sp.body != "")
    && (sp.Bracketed? ==> ManyColons(sp.body))
  }

  ghost predicate Port(port: Option<string>) {
    port.Some? ==> Digits(port.value)
  }

  function PortText(port: Option<string>): string {
    match port case None => "" case Some(p) => ":" + p
  }

  function DotText(dot: bool): string {
    if dot then "." else ""
  }

  function Written(sp: Spelling): string {
    match sp
    case Name(body, dot, port) => body + DotText(dot) + PortText(port)
    case Bracketed(body, port) => "[" + body + "]" + PortText(port)
    case BareAddress(body) => body
  }

  /** What is left of a spelling without its port and brackets. */
  function Stem(sp: Spelling): string {
    if sp.Name? then sp.body + DotText(sp.dot) else sp.body
  }

  function LowerSpelling(sp: Spelling): Spelling {
    sp.(body := Lower(sp.body))
  }

  lemma {:induction false} LowerPort(port: Option<string>)
    requires Port(port)
    ensures Lower(PortText(port)) == PortText(port)
  {
  }

  lemma {:induction false} LowerBody(s: string)
    ensures Plain(s) ==> Plain(Lower(s))
    ensures NoFinalDot(s) ==> NoFinalDot(Lower(s))
    ensures Lacks(s, ':') ==> Lacks(Lower(s), ':')
    ensures ManyColons(s) ==> ManyColons(Lower(s))
  {
  }

  lemma {:induction false} LowerSpellingReadable(sp: Spelling)
    requires Readable(sp)
    ensures Readable(LowerSpelling(sp))
  {
    LowerBody(sp.body);
  }

  lemma {:induction false} LowerWritten(sp: Spelling)
    requires Readable(sp)
    ensures Written(LowerSpelling(sp)) == Lower(Written(sp))
  {
    match sp
    case Name(body, dot, port) =>
      LowerPort(port);
      LowerConcat(body + DotText(dot), PortText(port));
      LowerConcat(body, DotText(dot));
      assert Lower(DotText(dot)) == DotText(dot);
    case Bracketed(body, port) =>
      LowerPort(port);
      LowerConcat("[" + body + "]", PortText(port));
      LowerConcat("[" + body, "]");
      LowerConcat("[", body);
      assert Lower("[") == "[" && Lower("]") == "]";
    case BareAddress(body) =>
  }

  lemma {:induction false} PortTextPlain(port: Option<string>)
    requires Port(port)
    ensures Plain(PortText(port))
  {
  }

  lemma {:induction false} WrittenHasNoSpace(sp: Spelling)
    requires Readable(sp)
    ensures NoneIn(Written(sp), SPACE)
  {
    match sp
    case Name(body, dot, port) =>
      PortTextPlain(port);
      assert NoneIn(DotText(dot), SPACE);
      NoneInConcat(body, DotText(dot), SPACE);
      NoneInConcat(body + DotText(dot), PortText(port), SPACE);
    case Bracketed(body, port) =>
      PortTextPlain(port);
      assert NoneIn("[", SPACE) && NoneIn("]", SPACE);
      NoneInConcat("[", body, SPACE);
      NoneInConcat("[" + body, "]", SPACE);
      NoneInConcat("[" + body + "]", PortText(port), SPACE);
    case BareAddress(body) =>
  }

  lemma {:induction false} SplitName(host: string, port: string)
    requires Plain(host) && Lacks(host, ':') && Digits(port)
    ensures WithoutPort(host + ":" + port) == host
    ensures WithoutPort(host) == host
  {
    var s := host + ":" + port;
    LastIndexOfIs(host, ':', port);
    LastIndexOfNone(host, ':');
    assert s[..|host|] == host;
    assert Lacks(s, '[') && Lacks(s, ']');
  }

  lemma {:induction false} SplitBracketed(body: string, port: string)
    requires Plain(body) && Digits(port)
    ensures SplitHostPort("[" + body + "]" + ":" + port) == Some(body)
  {
    var s := "[" + body + "]" + ":" + port;
    LastIndexOfIs("[" + body + "]", ':', port);
    IndexOfIs("[" + body, ']', ":" + port);
    assert s == ("[" + body) + "]" + (":" + port);
    assert s[1..|body| + 1] == body && s[|body| + 2..] == ":" + port;
    assert Lacks(s[1..], '[') && Lacks(s[|body| + 2..], ']');
  }

  lemma {:induction false} SplitClosed(body: string)
    requires Plain(body)
    ensures SplitHostPort("[" + body + "]") == None
  {
  }

  lemma {:induction false} SplitBareAddress(body: string)
    requires Plain(body) && ManyColons(body)
    ensures SplitHostPort(body) == None
  {
    var i, j :| 0 <= i < j < |body| && body[i] == ':' && body[j] == ':';
    LastIndexAtLeast(body, ':', j);
    var colon := LastIndexOf(body, ':').value;
    assert body[..colon][i] == ':';
  }

  lemma {:induction false} LastIndexAtLeast(s: string, c: char, j: nat)
    requires j < |s| && s[j] == c
    ensures LastIndexOf(s, c).Some? && j <= LastIndexOf(s, c).value
  {
    if s[|s| - 1] != c {
      LastIndexAtLeast(s[..|s| - 1], c, j);
    }
  }

  lemma {:induction false} TrimDotUndoes(s: string, dot: bool)
    requires NoFinalDot(s) && (dot ==> s != "")
    ensures TrimDot(s + DotText(dot)) == s
  {
  }

  lemma {:induction false} PlainConcat(a: string, b: string)
    requires Plain(a) && Plain(b)
    ensures Plain(a + b)
  {
  }

  lemma {:induction false} DotsPlain()
    ensures Plain("") && Plain(".")
    ensures Lacks("", ':') && Lacks(".", ':')
  {
  }

  lemma {:induction false} WithoutPortName(host: string, port: Option<string>)
    requires Plain(host) && Lacks(host, ':') && Port(port)
    ensures Trim(WithoutPort(host + PortText(port)), BRACKETS) == host
  {
    TrimNothing(host, BRACKETS);
    if port.Some? {
      SplitName(host, port.value);
      ConcatAssoc(host, ":", port.value);
    } else {
      SplitName(host, "");
      assert host + "" == host;
    }
  }

  lemma {:induction false} WithoutPortBracketed(body: string, port: Option<string>)
    requires Plain(body) && Port(port)
    ensures Trim(WithoutPort(Written(Bracketed(body, port))), BRACKETS) == body
  {
    var s := "[" + body + "]";
    if port.Some? {
      SplitBracketed(body, port.value);
      ConcatAssoc(s, ":", port.value);
      TrimNothing(body, BRACKETS);
    } else {
      SplitClosed(body);
      assert s + PortText(port) == s;
      TrimPadding("[", body, "]", BRACKETS);
    }
  }

  /** Removing the port and the brackets leaves the body and its dot. */
  lemma {:induction false} WithoutPortOf(sp: Spelling)
    requires Readable(sp)
    ensures Trim(WithoutPort(Written(sp)), BRACKETS) == Stem(sp)
  {
    match sp
    case Name(body, dot, port) =>
      DotsPlain();
      PlainConcat(body, DotText(dot));
      LacksConcat(body, DotText(dot), ':');
      WithoutPortName(body + DotText(dot), port);
    case Bracketed(body, port) => WithoutPortBracketed(body, port);
    case BareAddress(body) =>
      SplitBareAddress(body);
      TrimNothing(body, BRACKETS);
  }

  lemma {:induction false} NormalizeTrimmed(raw: string, sp: Spelling)
    requires Readable(sp) && Trim(raw, SPACE) == Written(sp)
    ensures NormalizeHost(raw) == TrimDot(Stem(LowerSpelling(sp)))
    ensures WellFormed(sp) ==> NormalizeHost(raw) == Lower(sp.body)
  {
    var low := LowerSpelling(sp);
    LowerSpellingReadable(sp);
    LowerWritten(sp);
    WithoutPortOf(low);
    if WellFormed(sp) {
      StemTrimmed(sp);
    }
  }

  lemma {:induction false} StemTrimmed(sp: Spelling)
    requires WellFormed(sp)
    ensures TrimDot(Stem(LowerSpelling(sp))) == Lower(sp.body)
  {
    LowerBody(sp.body);
    TrimDotUndoes(Lower(sp.body), sp.Name? && sp.dot);
    assert Lower(sp.body) + "" == Lower(sp.body);
  }

  /**
   * Normalisation in closed form: every well-formed spelling, in any letter case and with
   * any white space around it, becomes the lower-case body.
   */
  lemma {:induction false} NormalizeSpelling(left: string, sp: Spelling, right: string)
    requires WellFormed(sp) && AllIn(left, SPACE) && AllIn(right, SPACE)
    ensures NormalizeHost(left + Written(sp) + right) == Lower(sp.body)
  {
    WrittenHasNoSpace(sp);
    TrimPadding(left, Written(sp), right, SPACE);
    NormalizeTrimmed(left + Written(sp) + right, sp);
  }

  lemma {:induction false} NormalizeWritten(sp: Spelling)
    requires Readable(sp)
    ensures NormalizeHost(Written(sp)) == TrimDot(Stem(LowerSpelling(sp)))
    ensures WellFormed(sp) ==> NormalizeHost(Written(sp)) == Lower(sp.body)
  {
    WrittenHasNoSpace(sp);
    TrimNothing(Written(sp), SPACE);
    NormalizeTrimmed(Written(sp), sp);
  }

  /** Two spellings of the same host, differing in case, port, dot, brackets or padding, agree. */
  lemma {:induction false} SpellingsAgree(left: string, a: Spelling, right: string, b: Spelling)
    requires WellFormed(a) && WellFormed(b) && Lower(a.body) == Lower(b.body)
    requires AllIn(left, SPACE) && AllIn(right, SPACE)
    ensures NormalizeHost(left + Written(a) + right) == NormalizeHost(Written(b))
  {
    NormalizeSpelling(left, a, right);
    NormalizeWritten(b);
  }

  /** Normalising twice is normalising once: patterns go through it twice, requests once. */
  lemma {:induction false} NormalizeIdempotent(sp: Spelling)
    requires WellFormed(sp)
    ensures NormalizeHost(NormalizeHost(Written(sp))) == NormalizeHost(Written(sp))
  {
    NormalizeWritten(sp);
    LowerBody(sp.body);
    LowerIdempotent(sp.body);
    NormalizeFixedPoints(Lower(sp.body));
  }

  /********** Fixed points **********/

  /** Neither end of the text is in the set. */
  ghost predicate EndsOutside(s: string, cut: set<char>) {
    s != "" ==> s[0] !in cut && s[|s| - 1] !in cut
  }

  /** Exactly one colon and no bracket: what is read as a name with a port. */
  ghost predicate LoneColon(s: string) {
    !Lacks(s, ':') && !ManyColons(s) && NoneIn(s, BRACKETS)
  }

  ghost predicate Settled(s: string) {
    && Lower(s) == s
    && EndsOutside(s, SPACE) && EndsOutside(s, BRACKETS)
    && !LoneColon(s)
    && (|s| > 1 ==> s[|s| - 1] != '.')
  }

  lemma {:induction false} TrimKeeps(s: string, cut: set<char>)
    ensures |Trim(s, cut)| == |s| <==> EndsOutside(s, cut)
    ensures EndsOutside(s, cut) ==> Trim(s, cut) == s
  {
  }

  /** A text that does not begin with a bracket has a port exactly when its one colon says so. */
  lemma {:induction false} SplitExactly(s: string)
    ensures SplitHostPort(s).Some? ==> |SplitHostPort(s).value| < |s|
    ensures EndsOutside(s, BRACKETS) ==> (SplitHostPort(s).Some? <==> LoneColon(s))
  {
    if i :| 0 <= i < |s| && s[i] == ':' {
      LastIndexAtLeast(s, ':', i);
      LastIndexHolds(s, ':');
      var colon := LastIndexOf(s, ':').value;
      if j :| 0 <= j < |s| && s[j] == ':' && j != colon {
        LastIndexAtLeast(s, ':', j);
        assert s[..colon][j] == ':';
      }
      assert NoneIn(s, BRACKETS) <==> !('[' in s || ']' in s);
    } else {
      LastIndexOfNone(s, ':');
    }
  }

  lemma {:induction false} LastIndexHolds(s: string, c: char)
    requires LastIndexOf(s, c).Some?
    ensures s[LastIndexOf(s, c).value] == c
  {
    if s[|s| - 1] != c {
      LastIndexHolds(s[..|s| - 1], c);
    }
  }

  /** `s` is a host and a port, in the way of a name or of a bracketed literal. */
  ghost predicate HostPort(s: string, host: string, port: string) {
    && Lacks(port, ':') && NoneIn(port, {'[', ']'}) && NoneIn(host, {'[', ']'})
    && ((s == host + ":" + port && Lacks(host, ':')) || s == "[" + host + "]:" + port)
  }

  /** A port is split off exactly where there is one. */
  lemma {:induction false} SplitHostPortExactly(s: string, host: string)
    ensures SplitHostPort(s) == Some(host) <==> exists port: string :: HostPort(s, host, port)
  {
    if port: string :| HostPort(s, host, port) {
      HostPortSplits(s, host, port);
    }
    if SplitHostPort(s) == Some(host) {
      SplitsHostPort(s, host);
    }
  }

  lemma {:induction false} HostPortSplits(s: string, host: string, port: string)
    requires HostPort(s, host, port)
    ensures SplitHostPort(s) == Some(host)
  {
    if s == host + ":" + port && Lacks(host, ':') {
      LastIndexOfIs(host, ':', port);
      assert s[..|host|] == host;
      assert Lacks(s, '[') && Lacks(s, ']');
    } else {
      assert s == ("[" + host + "]") + ":" + port;
      LastIndexOfIs("[" + host + "]", ':', port);
      assert s == ("[" + host) + "]" + (":" + port);
      assert Lacks("[" + host, ']');
      IndexOfIs("[" + host, ']', ":" + port);
      assert s[1..|host| + 1] == host && s[|host| + 2..] == ":" + port;
      assert Lacks(s[1..], '[') && Lacks(s[|host| + 2..], ']');
    }
  }

  lemma {:induction false} LastIndexLast(s: string, c: char)
    requires LastIndexOf(s, c).Some?
    ensures Lacks(s[LastIndexOf(s, c).value + 1..], c)
  {
    var i := LastIndexOf(s, c).value;
    forall k | i < k < |s| ensures s[k] != c {
      if s[k] == c {
        LastIndexAtLeast(s, c, k);
      }
    }
  }

  lemma {:induction false} SplitsHostPort(s: string, host: string)
    requires SplitHostPort(s) == Some(host)
    ensures exists port: string :: HostPort(s, host, port)
  {
    var colon := LastIndexOf(s, ':').value;
    var port := s[colon + 1..];
    LastIndexHolds(s, ':');
    LastIndexLast(s, ':');
    if s[0] == '[' {
      IndexOfFirst(s, ']');
      BracketedParts(s, host, port, colon);
    } else {
      assert s == host + ":" + port;
    }
    assert HostPort(s, host, port);
  }

  lemma {:induction false} BracketedParts(s: string, host: string, port: string, colon: nat)
    requires 2 <= colon < |s| && s[0] == '[' && s[colon - 1] == ']' && s[colon] == ':'
    requires host == s[1..colon - 1] && port == s[colon + 1..]
    requires Lacks(s[..colon - 1], ']') && '[' !in s[1..] && ']' !in s[colon..]
    ensures s == "[" + host + "]:" + port && NoneIn(host, {'[', ']'}) && NoneIn(port, {'[', ']'})
  {
    assert forall i :: 1 <= i < |s| ==> s[1..][i - 1] == s[i];
    assert forall i :: colon <= i < |s| ==> s[colon..][i - colon] == s[i];
    assert forall i :: 0 <= i < colon - 1 ==> s[..colon - 1][i] == s[i];
  }

  /** The texts that normalisation leaves alone, so for every input when a second pass changes nothing. */
  lemma {:induction false} NormalizeFixedPoints(s: string)
    ensures NormalizeHost(s) == s <==> Settled(s)
  {
    var h := Lower(Trim(s, SPACE));
    TrimKeeps(s, SPACE);
    SplitExactly(h);
    TrimKeeps(WithoutPort(h), BRACKETS);
    if Settled(s) && s != "" {
      assert h == s && WithoutPort(h) == s;
    }
    if NormalizeHost(s) == s && s != "" {
      assert |h| == |s| && WithoutPort(h) == h;
    }
  }

  /** How many dots the text ends in. */
  function FinalDots(s: string): nat {
    if s != "" && s[|s| - 1] == '.' then 1 + FinalDots(s[..|s| - 1]) else 0
  }

  lemma {:induction false} LowerKeepsDots(s: string)
    ensures FinalDots(Lower(s)) == FinalDots(s)
  {
    if s != "" && s[|s| - 1] == '.' {
      assert Lower(s)[..|s| - 1] == Lower(s[..|s| - 1]);
      LowerKeepsDots(s[..|s| - 1]);
    }
  }

  lemma {:induction false} LowerKeepsColons(s: string)
    ensures Lacks(Lower(s), ':') == Lacks(s, ':') && ManyColons(Lower(s)) == ManyColons(s)
  {
    assert forall i :: 0 <= i < |s| ==> (s[i] == ':' <==> Lower(s)[i] == ':');
  }

  lemma {:induction false} TrimDotKeepsColons(s: string)
    ensures Lacks(TrimDot(s), ':') == Lacks(s, ':') && ManyColons(TrimDot(s)) == ManyColons(s)
  {
    if TrimDot(s) != s {
      assert s == TrimDot(s) + ".";
    }
  }

  /** Without one final dot a plain lower-case text is settled, but for a lone colon or more dots. */
  lemma {:induction false} SettledOnce(low: string)
    requires Plain(low) && Lower(low) == low
    ensures Settled(TrimDot(low)) <==>
            (FinalDots(low) <= 1 || low == "..") && (Lacks(low, ':') || ManyColons(low))
  {
    TrimDotKeepsColons(low);
    DotsLeft(low);
    var once := TrimDot(low);
    assert Lower(once) == once && NoneIn(once, BRACKETS);
    assert EndsOutside(once, SPACE) && EndsOutside(once, BRACKETS);
  }

  lemma {:induction false} DotsLeft(s: string)
    ensures var once := TrimDot(s);
            (|once| > 1 ==> once[|once| - 1] != '.') <==> FinalDots(s) <= 1 || s == ".."
  {
  }

  /**
   * A bracketed literal, in any letter case and with any port, normalises idempotently exactly
   * when it neither ends in two dots, unless it is those, nor holds a single colon. IPv6 never
   * does either; the IPvFuture form of RFC 3986 may do both.
   */
  lemma {:induction false} BracketedIdempotence(body: string, port: Option<string>)
    requires Plain(body) && Port(port)
    ensures var once := NormalizeHost(Written(Bracketed(body, port)));
            && once == TrimDot(Lower(body))
            && (NormalizeHost(once) == once <==>
                (FinalDots(body) <= 1 || body == "..") && (Lacks(body, ':') || ManyColons(body)))
  {
    NormalizeWritten(Bracketed(body, port));
    OnceMore(body);
  }

  /** A name does so exactly when it does not end in two dots, unless it is those. */
  lemma {:induction false} TrailingDots(name: string, port: Option<string>)
    requires Plain(name) && Lacks(name, ':') && Port(port)
    ensures var once := NormalizeHost(name + PortText(port));
            && once == TrimDot(Lower(name))
            && (NormalizeHost(once) == once <==> FinalDots(name) <= 1 || name == "..")
  {
    NameSpelled(name, port);
    NormalizeWritten(Name(name, false, port));
    assert Lower(name) + "" == Lower(name);
    OnceMore(name);
  }

  lemma {:induction false} OnceMore(body: string)
    requires Plain(body)
    ensures var once := TrimDot(Lower(body));
            NormalizeHost(once) == once <==>
            (FinalDots(body) <= 1 || body == "..") && (Lacks(body, ':') || ManyColons(body))
  {
    LowerBody(body);
    LowerIdempotent(body);
    LowerKeepsDots(body);
    LowerKeepsColons(body);
    assert body == ".." <==> Lower(body) == "..";
    SettledOnce(Lower(body));
    NormalizeFixedPoints(TrimDot(Lower(body)));
  }

  lemma {:induction false} NameSpelled(name: string, port: Option<string>)
    ensures Written(Name(name, false, port)) == name + PortText(port)
  {
    assert name + "" == name;
  }

  /**
   * What a second pass costs: a route stored under a host that is not settled does not match
   * requests for that very host, since matching normalises the stored pattern once more.
   */
  lemma {:induction false} SelfMatch(raw: string)
    requires NormalizeHost(raw) != "" && !("*" <= NormalizeHost(NormalizeHost(raw)))
    ensures HostMatches(NormalizeHost(raw), NormalizeHost(raw)) <==> Settled(NormalizeHost(raw))
  {
    NormalizeFixedPoints(NormalizeHost(raw));
  }

  lemma {:induction false} SplitLoneColon(before: string, after: string)
    requires Plain(before) && Plain(after) && Lacks(before, ':') && Lacks(after, ':')
    ensures SplitHostPort(before + ":" + after) == Some(before)
  {
    var s := before + ":" + after;
    LastIndexOfIs(before, ':', after);
    assert s[..|before|] == before;
    assert Lacks(s, '[') && Lacks(s, ']');
  }

  /** Where a lone colon is left, the second pass takes what follows it for a port. */
  lemma {:induction false} LoneColonCut(before: string, after: string, body: string)
    requires body == before + ":" + after && Plain(body) && Lower(body) == body
    requires Lacks(before, ':') && Lacks(after, ':')
    ensures NormalizeHost(body) == TrimDot(before)
  {
    assert before == body[..|before|] && after == body[|before| + 1..];
    TrimNothing(body, SPACE);
    SplitLoneColon(before, after);
    TrimNothing(before, BRACKETS);
  }

  lemma {:induction false} NormalizeClosed(body: string)
    requires Plain(body) && NoFinalDot(body) && Lower(body) == body
    ensures NormalizeHost("[" + body + "]") == body
  {
    BracketedIdempotence(body, None);
    assert "[" + body + "]" + "" == "[" + body + "]";
  }

  lemma {:induction false} LoneColonLiteral(before: string, after: string, body: string, host: string)
    requires body == before + ":" + after && host == "[" + body + "]"
    requires Plain(body) && NoFinalDot(body) && Lower(body) == body
    requires Lacks(before, ':') && Lacks(after, ':') && NoFinalDot(before)
    ensures NormalizeHost(host) == body && NormalizeHost(body) == before
  {
    NormalizeClosed(body);
    LoneColonCut(before, after, body);
  }

  /** One such literal. */
  lemma {:induction false} FutureLiteralShrinks(host: string, body: string, before: string)
    requires host == "[v1.a:b]" && body == "v1.a:b" && before == "v1.a"
    ensures NormalizeHost(host) == body && NormalizeHost(body) == before
  {
    SmallLetters(body);
    LoneColonLiteral(before, "b", body, host);
  }

  /** One with two final dots. */
  lemma {:induction false} DottedLiteralShrinks(host: string, once: string, twice: string)
    requires host == "[v1.a..]" && once == "v1.a." && twice == "v1.a"
    ensures NormalizeHost(host) == once && NormalizeHost(once) == twice
  {
    DotsLoseOne(twice, once, once + ".", host);
  }

  lemma {:induction false} DotsLoseOne(name: string, dotted: string, twice: string, host: string)
    requires forall i :: 0 <= i < |name| ==> name[i] in "v1.ab"
    requires name != "" && dotted == name + "." && twice == dotted + "." && host == "[" + twice + "]"
    ensures NormalizeHost(host) == dotted && NormalizeHost(dotted) == name
  {
    SmallLetters(dotted);
    SmallLetters(twice);
    TrailingDots(dotted, None);
    BracketedIdempotence(twice, None);
    assert host == host + "" && dotted == dotted + "";
    assert dotted[..|name|] == name && twice[..|dotted|] == dotted;
  }

  lemma {:induction false} SmallLetters(s: string)
    requires forall i :: 0 <= i < |s| ==> s[i] in "v1.ab:*fo"
    ensures Lower(s) == s && Plain(s)
  {
    assert forall c :: c in "v1.ab:*fo" ==> LowerChar(c) == c && c !in SPACE && c !in BRACKETS;
  }

  /********** Letter case **********/

  lemma {:induction false} SpaceCaseless()
    ensures Caseless(SPACE)
  {
  }

  /** Whatever the text: hosts that differ in the case of letters only normalise alike. */
  lemma {:induction false} CaseBlind(s: string, t: string)
    requires SameButCase(s, t)
    ensures NormalizeHost(s) == NormalizeHost(t)
  {
    SpaceCaseless();
    LowerForgetsCase(s, t);
    TrimLower(s, SPACE);
    TrimLower(t, SPACE);
  }

  /** And no capital letter is left. */
  lemma {:induction false} NormalizeNoCapitals(raw: string)
    ensures NoCapitals(NormalizeHost(raw))
  {
    var h := Lower(Trim(raw, SPACE));
    LowerNoCapitals(Trim(raw, SPACE));
    WithoutPortNoCapitals(h);
    TrimNoCapitals(WithoutPort(h), BRACKETS);
    TrimDotNoCapitals(Trim(WithoutPort(h), BRACKETS));
  }

  lemma {:induction false} WithoutPortNoCapitals(h: string)
    requires NoCapitals(h)
    ensures NoCapitals(WithoutPort(h))
  {
  }

  lemma {:induction false} TrimNoCapitals(s: string, cut: set<char>)
    requires NoCapitals(s)
    ensures NoCapitals(Trim(s, cut))
  {
    var i, j := TrimSlices(s, cut);
    assert forall k :: i <= k < j ==> s[i..j][k - i] == s[k];
  }

  lemma {:induction false} TrimDotNoCapitals(s: string)
    requires NoCapitals(s)
    ensures NoCapitals(TrimDot(s))
  {
  }

  /** A host as it may arrive: every kind of white space around it, capitals, final dot and port. */
  lemma {:induction false} ExampleHost(raw: string)
    requires raw == "\t\r\n Example.COM.:8080\U{0B}\U{0C}"
    ensures NormalizeHost(raw) == "example.com"
  {
    var left, right := "\t\r\n ", "\U{0B}\U{0C}";
    var sp := Name("Example.COM", true, Some("8080"));
    ExampleWellFormed(sp.body, sp.port.value);
    ExampleLower(sp.body);
    assert raw == left + Written(sp) + right;
    NormalizeSpelling(left, sp, right);
  }

  lemma {:induction false} ExampleWellFormed(body: string, port: string)
    requires body == "Example.COM" && port == "8080"
    ensures WellFormed(Name(body, true, Some(port)))
  {
  }

  lemma {:induction false} ExampleLower(body: string)
    requires body == "Example.COM"
    ensures Lower(body) == "example.com"
  {
  }

  /********** Patterns **********/

  /** A bare lower-case name or address, as normalisation produces it. */
  ghost predicate Canonical(s: string) {
    Plain(s) && NoFinalDot(s) && Lower(s) == s && (Lacks(s, ':') || ManyColons(s))
  }

  /** One of the three documented patterns: empty, a host, or "*." and a domain. */
  ghost predicate Documented(pattern: string) {
    Canonical(pattern) && ("*" <= pattern ==> "*." <= pattern)
  }

  lemma {:induction false} CanonicalFixed(s: string)
    requires Canonical(s)
    ensures NormalizeHost(s) == s
  {
    NormalizeFixedPoints(s);
  }

  /** What registering a documented pattern stores is again a documented pattern. */
  lemma {:induction false} RegisteredPatternDocumented(sp: Spelling)
    requires WellFormed(sp) && ("*" <= sp.body ==> "*." <= sp.body)
    ensures Documented(NormalizeHost(Written(sp)))
  {
    NormalizeWritten(sp);
    LowerDocumented(sp);
  }

  lemma {:induction false} LowerDocumented(sp: Spelling)
    requires WellFormed(sp) && ("*" <= sp.body ==> "*." <= sp.body)
    ensures Documented(Lower(sp.body))
  {
    LowerBody(sp.body);
    LowerIdempotent(sp.body);
    if "*" <= Lower(sp.body) {
      assert sp.body[0] == '*';
    }
  }

  /** A wildcard covers every deeper name and nothing else; in particular not the apex. */
  lemma {:induction false} WildcardCovers(domain: string, host: string)
    requires Documented("*." + domain)
    ensures HostMatches("*." + domain, host) <==>
            exists sub: string :: sub != "" && host == sub + ("." + domain)
    ensures !HostMatches("*." + domain, domain)
  {
    CanonicalFixed("*." + domain);
    CoversSubdomains(domain, host);
    CoversSubdomains(domain, domain);
  }

  /** What each documented form matches: any host, the host itself, or what is below the domain. */
  lemma {:induction false} DocumentedMatches(p: string, host: string)
    requires Documented(p)
    ensures HostMatches(p, host) <==>
            p == "" || host == p || ("*." <= p && exists sub: string :: sub != "" && host == sub + p[1..])
  {
    CanonicalFixed(p);
    if "*." <= p {
      assert p == "*" + p[1..];
      CoversTail(p[1..], host);
    }
  }

  lemma {:induction false} CoversSubdomains(domain: string, host: string)
    ensures Covers("*." + domain, host) <==> exists sub: string :: sub != "" && host == sub + ("." + domain)
  {
    var tail := "." + domain;
    assert "*." + domain == "*" + tail;
    CoversTail(tail, host);
  }

  lemma {:induction false} CoversTail(tail: string, host: string)
    ensures Covers("*" + tail, host) <==> exists sub: string :: sub != "" && host == sub + tail
  {
    assert ("*" + tail)[1..] == tail;
    if Covers("*" + tail, host) {
      var sub := host[..|host| - |tail|];
      assert host == sub + tail && sub != "";
    }
  }

  /** Two patterns cover a common host exactly when one covers the other. */
  lemma {:induction false} CommonHost(p: string, q: string)
    ensures (exists host :: Covers(p, host) && Covers(q, host)) <==> Covers(p, q) || Covers(q, p)
  {
    if Covers(p, q) {
      assert Covers(q, q);
    }
    if Covers(q, p) {
      assert Covers(p, p);
    }
    if host :| Covers(p, host) && Covers(q, host) {
      if |p| <= |q| {
        CoversLonger(p, q, host);
      } else {
        CoversLonger(q, p, host);
      }
    }
  }

  /** Some host matches both patterns. */
  predicate Overlap(p: string, q: string) {
    || p == "" || q == ""
    || Covers(NormalizeHost(p), NormalizeHost(q)) || Covers(NormalizeHost(q), NormalizeHost(p))
  }

  lemma {:induction false} OverlapExact(p: string, q: string)
    ensures (exists raw :: HostMatches(p, NormalizeHost(raw)) && HostMatches(q, NormalizeHost(raw))) <==> Overlap(p, q)
    ensures (exists host :: HostMatches(p, host) && HostMatches(q, host)) <==> Overlap(p, q)
  {
    var np, nq := NormalizeHost(p), NormalizeHost(q);
    assert HostMatches(p, np) && HostMatches(q, nq);
    if host :| HostMatches(p, host) && HostMatches(q, host) {
      OverlapMeets(p, q, host);
    }
    if Overlap(p, q) {
      assert HostMatches(p, nq) || HostMatches(q, np);
    }
  }

  lemma {:induction false} OverlapMeets(p: string, q: string, host: string)
    requires HostMatches(p, host) && HostMatches(q, host)
    ensures Overlap(p, q)
  {
    if p != "" && q != "" {
      CommonHost(NormalizeHost(p), NormalizeHost(q));
    }
  }

  lemma {:induction false} CoversLonger(p: string, q: string, host: string)
    requires Covers(p, host) && Covers(q, host) && |p| <= |q|
    ensures Covers(p, q) || Covers(q, p)
  {
  }

  /** A star that is not followed by a dot: ranked as an exact host, matched as a wildcard. */
  predicate BareStar(p: string) {
    "*" <= p && !("*." <= p)
  }

  /** Two patterns that differ in a leading bare star only. */
  predicate Clash(p: string, q: string) {
    p != q && |p| == |q| && p[1..] == q[1..] && (BareStar(p) || BareStar(q))
  }

  /** Distinct patterns of one length cover a common host exactly when they differ in a star. */
  lemma {:induction false} EqualLengthOverlap(p: string, q: string)
    requires |p| == |q| && p != q
    ensures (exists host :: Covers(p, host) && Covers(q, host)) <==>
            p[1..] == q[1..] && (p[0] == '*' || q[0] == '*')
  {
    CommonHost(p, q);
  }

  /** Distinct normalised patterns rank alike and match a common host exactly when they clash. */
  lemma {:induction false} BareStarTies(p: string, q: string)
    requires NormalizeHost(p) == p && NormalizeHost(q) == q && p != q
    ensures HostSpecificity(p) == HostSpecificity(q) && |p| == |q| &&
            (exists host :: HostMatches(p, host) && HostMatches(q, host))
            <==> Clash(p, q)
  {
    if |p| == |q| {
      EqualLengthOverlap(p, q);
      assert forall host :: HostMatches(p, host) <==> Covers(p, host);
      assert forall host :: HostMatches(q, host) <==> Covers(q, host);
    }
  }

  /** Such a pair. */
  lemma {:induction false} StarClashes(star: string, host: string)
    requires star == "*oo" && host == "foo"
    ensures HostSpecificity(star) == HostSpecificity(host) && |star| == |host|
    ensures HostMatches(star, host) && HostMatches(host, host)
    ensures Clash(star, host)
  {
    SmallLetters(star);
    SmallLetters(host);
    assert star[1] != '.' && star[1..] == host[1..];
    ClashMatches(star, host);
  }

  lemma {:induction false} ClashMatches(star: string, host: string)
    requires Canonical(star) && Canonical(host) && Clash(star, host) && BareStar(star)
    ensures HostMatches(star, host) && HostMatches(host, host)
  {
    CanonicalFixed(star);
    CanonicalFixed(host);
  }

  /** Patterns in a documented form do not clash. */
  lemma {:induction false} DocumentedNoClash(p: string, q: string)
    requires Documented(p) && Documented(q)
    ensures !Clash(p, q)
  {
  }

  /** No more specific pattern: a higher class, or the same class and longer. */
  predicate NoMoreSpecific(q: string, p: string) {
    HostSpecificity(q) < HostSpecificity(p) || (HostSpecificity(q) == HostSpecificity(p) && |q| <= |p|)
  }

  function Label(n: nat): string {
    seq(n, _ => 'a')
  }

  /** A host the pattern matches and that is out of reach of all short patterns more specific. */
  function OwnHost(p: string, m: nat): string {
    if "*." <= p then Label(m + 1) + p[1..] else p
  }

  lemma {:induction false} ColonsShifted(sub: string, tail: string)
    requires Lacks(sub, ':')
    ensures Lacks(tail, ':') ==> Lacks(sub + tail, ':')
    ensures ManyColons(tail) ==> ManyColons(sub + tail)
  {
    if ManyColons(tail) {
      var i, j :| 0 <= i < j < |tail| && tail[i] == ':' && tail[j] == ':';
      assert (sub + tail)[|sub| + i] == ':' && (sub + tail)[|sub| + j] == ':';
    }
  }

  lemma {:induction false} TailKept(p: string)
    requires Documented(p) && "*." <= p
    ensures Plain(p[1..]) && Lower(p[1..]) == p[1..] && |p| > 2 && p[|p| - 1] != '.'
    ensures Lacks(p[1..], ':') || ManyColons(p[1..])
  {
    if ManyColons(p) {
      var i, j :| 0 <= i < j < |p| && p[i] == ':' && p[j] == ':';
      assert p[1..][i - 1] == ':' && p[1..][j - 1] == ':';
    }
  }

  lemma {:induction false} LabelPlain(n: nat)
    ensures Plain(Label(n)) && Lower(Label(n)) == Label(n) && Lacks(Label(n), ':') && Lacks(Label(n), '.')
  {
  }

  lemma {:induction false} OwnHostCanonical(p: string, m: nat)
    requires Documented(p)
    ensures Canonical(OwnHost(p, m))
  {
    if "*." <= p {
      var sub, tail := Label(m + 1), p[1..];
      TailKept(p);
      LabelPlain(m + 1);
      PlainConcat(sub, tail);
      LowerConcat(sub, tail);
      ColonsShifted(sub, tail);
    }
  }

  lemma {:induction false} OwnHostCovered(p: string, m: nat)
    requires Documented(p) && p != ""
    ensures Covers(p, OwnHost(p, m))
  {
    if "*." <= p {
      assert OwnHost(p, m)[m + 1..] == p[1..];
    }
  }

  lemma {:induction false} DottedEndWithin(sub: string, tail: string, end: string)
    requires Lacks(sub, '.') && "." <= end && HasSuffix(sub + tail, end)
    ensures |end| <= |tail|
  {
    var s := sub + tail;
    assert s[|s| - |end|] == s[|s| - |end|..][0];
  }

  lemma {:induction false} OwnHostFree(p: string, m: nat, q: string)
    requires Documented(p) && Documented(q) && q != "" && |q| <= m
    requires Covers(q, OwnHost(p, m))
    ensures NoMoreSpecific(q, p)
  {
    if "*." <= p && "*." <= q {
      LabelPlain(m + 1);
      DottedEndWithin(Label(m + 1), p[1..], q[1..]);
    }
  }

  /** Every documented pattern has a host on which no short documented pattern is more specific. */
  lemma {:induction false} OwnHostBelongs(p: string, m: nat)
    requires Documented(p)
    ensures var host := OwnHost(p, m);
            && NormalizeHost(host) == host && HostMatches(p, host)
            && forall q :: Documented(q) && |q| <= m && HostMatches(q, host) ==> NoMoreSpecific(q, p)
  {
    var host := OwnHost(p, m);
    OwnHostCanonical(p, m);
    CanonicalFixed(host);
    CanonicalFixed(p);
    if p != "" {
      OwnHostCovered(p, m);
    }
    forall q | Documented(q) && |q| <= m && HostMatches(q, host) ensures NoMoreSpecific(q, p) {
      CanonicalFixed(q);
      if q != "" {
        OwnHostFree(p, m, q);
      }
    }
  }
}
