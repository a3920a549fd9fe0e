/**
 * The name the "Add custom MCP tool" box proposes for a command line
 * (deriveNameFromCommand in page-mcp.js).  Three sources are tried in order:
 * the host of the first http(s) URL token, then the rightmost token that is
 * not a flag (its last path segment with the usual server prefixes stripped,
 * sanitised to [a-z0-9-]), then the first token, or "" for a blank line.
 */
module CommandName {
  import opened Wrappers
  import opened Text

  /** The command line's tokens: `cmdLine.trim().split(/\s+/).filter(Boolean)`. */
  function CommandTokens(cmdLine: string): (parts: seq<string>)
    ensures parts == Tokens(cmdLine)
    ensures forall i :: 0 <= i < |parts| ==> parts[i] != [] && NoSpace(parts[i])
  {
    TokensOfTrim(cmdLine);
    Tokens(Trim(cmdLine))
  }

  /** Length of the leading run of characters satisfying `keep`. */
  function Span(s: string, keep: char -> bool): (n: nat)
    ensures n <= |s|
    ensures forall i :: 0 <= i < n ==> keep(s[i])
    ensures n == |s| || !keep(s[n])
    decreases |s|
  {
    if s == [] || !keep(s[0]) then 0 else 1 + Span(s[1..], keep)
  }

  lemma {:induction false} SpanExact(s: string, keep: char -> bool, n: nat)
    requires n <= |s|
    requires forall i :: 0 <= i < n ==> keep(s[i])
    requires n == |s| || !keep(s[n])
    ensures Span(s, keep) == n
    decreases |s|
  {
    if n > 0 {
      assert keep(s[0]);
      forall i | 0 <= i < n - 1 ensures keep(s[1..][i]) {
        assert s[1..][i] == s[i + 1];
      }
      if n < |s| { assert s[1..][n - 1] == s[n]; }
      SpanExact(s[1..], keep, n - 1);
    }
  }

  // ---------------------------------------------------------------------
  // The URL branch

  /** A token the regular expression `^https?:\/\/` accepts. */
  predicate IsUrlToken(p: string) {
    StartsWith(p, "http://") || StartsWith(p, "https://")
  }

  /** Index of the first URL token, or -1 (Array.prototype.findIndex). */
  function FirstUrl(parts: seq<string>): (r: int)
    ensures -1 <= r < |parts|
    ensures r >= 0 ==> IsUrlToken(parts[r])
    ensures forall j :: 0 <= j < |parts| && (r < 0 || j < r) ==> !IsUrlToken(parts[j])
  {
    if parts == [] then -1
    else if IsUrlToken(parts[0]) then 0
    else
      var k := FirstUrl(parts[1..]);
      assert forall j :: 1 <= j < |parts| ==> parts[j] == parts[1..][j - 1];
      if k < 0 then -1 else k + 1
  }

  predicate IsSlash(c: char) {
    c == '/' || c == '\\'
  }

  predicate InAuthority(c: char) {
    !(c == '/' || c == '\\' || c == '?' || c == '#')
  }

  /** Characters the URL parser refuses in a host (a subset of the WHATWG forbidden host code points). */
  predicate ForbiddenInHost(c: char) {
    c == '<' || c == '>' || c == '[' || c == ']' || c == '^' || c == '|' || c == '%'
  }

  predicate IsDigit(c: char) {
    '0' <= c <= '9'
  }

  predicate AllDigits(s: string) {
    forall i :: 0 <= i < |s| ==> IsDigit(s[i])
  }

  predicate NoUpper(s: string) {
    forall i :: 0 <= i < |s| ==> !('A' <= s[i] <= 'Z')
  }

  /** The authority of an http(s) URL: after the scheme and any further
      slashes, up to the first '/', '\', '?' or '#'. */
  function Authority(p: string): (a: string)
    requires IsUrlToken(p)
  {
    var rest := if StartsWith(p, "http://") then p[7..] else p[8..];
    var afterSlashes := rest[Span(rest, IsSlash)..];
    afterSlashes[..Span(afterSlashes, InAuthority)]
  }

  /** `new URL(p).hostname` under this model's ASCII rule: the part of the
      authority after its last '@' and before its first ':', lower-cased;
      None (the constructor throws) when that host is empty or holds a
      forbidden character, or when the port is not all digits. */
  function UrlHostname(p: string): (h: Option<string>)
    requires IsUrlToken(p)
    ensures h.Some? ==> h.value != [] && NoUpper(h.value)
  {
    var pieces := Split(Authority(p), '@');
    var hostPort := pieces[|pieces| - 1];
    var colon := IndexOf(hostPort, ':');
    var host := if colon < 0 then hostPort else hostPort[..colon];
    var port := if colon < 0 then [] else hostPort[colon + 1..];
    if host == [] || (exists i :: 0 <= i < |host| && ForbiddenInHost(host[i])) || !AllDigits(port) then
      None
    else
      Some(ToLower(host))
  }

  /** Labels the name never comes from. */
  predicate Ignorable(part: string) {
    part == "mcp" || part == "www"
  }

  /** `labels.filter((p) => p !== "mcp" && p !== "www")`. */
  function KeptLabels(labels: seq<string>): (r: seq<string>)
    ensures forall i :: 0 <= i < |r| ==> !Ignorable(r[i]) && r[i] in labels
    ensures r == [] <==> forall i :: 0 <= i < |labels| ==> Ignorable(labels[i])
  {
    if labels == [] then []
    else
      var rest := KeptLabels(labels[1..]);
      assert forall i :: 1 <= i < |labels| ==> labels[i] == labels[1..][i - 1];
      if Ignorable(labels[0]) then rest else [labels[0]] + rest
  }

  /** One label is kept exactly when it is not ignorable. */
  lemma KeptLabel(part: string)
    ensures KeptLabels([part]) == if Ignorable(part) then [] else [part]
  {
    assert [part][1..] == [];
  }

  /** The filter distributes over concatenation: together with KeptLabel,
      the kept labels are the non-ignorable ones, every one of them, in order. */
  lemma {:induction false} KeptLabelsAppend(a: seq<string>, b: seq<string>)
    ensures KeptLabels(a + b) == KeptLabels(a) + KeptLabels(b)
    decreases |a|
  {
    if a == [] {
      assert a + b == b;
    } else {
      assert (a + b)[0] == a[0];
      assert (a + b)[1..] == a[1..] + b;
      KeptLabelsAppend(a[1..], b);
    }
  }

  /** The first kept label is the first label that is neither "mcp" nor "www". */
  lemma {:induction false} FirstKeptLabel(labels: seq<string>, k: nat)
    requires k < |labels| && !Ignorable(labels[k])
    requires forall j :: 0 <= j < k ==> Ignorable(labels[j])
    ensures KeptLabels(labels) != [] && KeptLabels(labels)[0] == labels[k]
  {
    if k > 0 {
      forall j | 0 <= j < k - 1 ensures Ignorable(labels[1..][j]) {
        assert labels[1..][j] == labels[j + 1];
      }
      assert labels[1..][k - 1] == labels[k];
      FirstKeptLabel(labels[1..], k - 1);
    }
  }

  /** The URL-branch name: the first dot-separated host label that is neither
      "mcp" nor "www" (the host is lower-case already, so the final
      `toLowerCase()` changes nothing), or None to fall through. */
  function UrlName(p: string): (r: Option<string>)
    requires IsUrlToken(p)
  {
    match UrlHostname(p)
    case None => None
    case Some(host) =>
      var kept := KeptLabels(Split(host, '.'));
      if kept == [] then None else Some(kept[0])
  }

  // ---------------------------------------------------------------------
  // The token branch

  /** The segment after the last '/' (`token.split("/").pop()`), or the token itself. */
  function LastSegment(token: string): (r: string)
    ensures '/' !in r
    ensures '/' !in token ==> r == token
    decreases |token|
  {
    var k := IndexOf(token, '/');
    if k < 0 then token else LastSegment(token[k + 1..])
  }

  /** It is the last of the pieces `token.split("/")` returns. */
  lemma {:induction false} LastSegmentIsLastPiece(token: string)
    ensures LastSegment(token) == Split(token, '/')[|Split(token, '/')| - 1]
    decreases |token|
  {
    var k := IndexOf(token, '/');
    if k >= 0 {
      var tail := Split(token[k + 1..], '/');
      assert Split(token, '/') == [token[..k]] + tail;
      LastSegmentIsLastPiece(token[k + 1..]);
    }
  }

  /** The prefixes `replace` removes, in the order it removes them. */
  const SERVER_PREFIXES: seq<string> := ["mcp-server-", "server-", "mcp-"]

  /** Each prefix in turn comes off the front when it is there. */
  function StripEach(base: string, prefixes: seq<string>): string
    decreases |prefixes|
  {
    if prefixes == [] then base else StripEach(StripPrefix(base, prefixes[0]), prefixes[1..])
  }

  /** `base.replace(/^mcp-server-/, "").replace(/^server-/, "").replace(/^mcp-/, "")`. */
  function StripServerPrefixes(base: string): string {
    StripEach(base, SERVER_PREFIXES)
  }

  /** What the scan proposes for one token: nothing for a flag, else the last
      segment with the server prefixes stripped. */
  function Candidate(token: string): string {
    if StartsWith(token, "-") then [] else StripServerPrefixes(LastSegment(token))
  }

  predicate IsNameChar(c: char) {
    'a' <= c <= 'z' || '0' <= c <= '9' || c == '-'
  }

  predicate IsName(s: string) {
    forall i :: 0 <= i < |s| ==> IsNameChar(s[i])
  }

  /** `s.toLowerCase().replace(/[^a-z0-9-]/g, "-")`. */
  function Sanitize(s: string): (r: string)
    ensures |r| == |s| && IsName(r)
  {
    var lower := ToLower(s);
    seq(|lower|, i requires 0 <= i < |lower| => if IsNameChar(lower[i]) then lower[i] else '-')
  }

  /** Each character is lower-cased and kept when it is a name character, else replaced by '-'. */
  lemma SanitizeChars(s: string)
    ensures forall i :: 0 <= i < |s| && IsNameChar(LowerChar(s[i])) ==> Sanitize(s)[i] == LowerChar(s[i])
    ensures forall i :: 0 <= i < |s| && !IsNameChar(LowerChar(s[i])) ==> Sanitize(s)[i] == '-'
  {
  }

  /** A name is its own sanitisation. */
  lemma SanitizeName(s: string)
    requires IsName(s)
    ensures Sanitize(s) == s
  {
    forall i | 0 <= i < |s| ensures Sanitize(s)[i] == s[i] {
      assert LowerChar(s[i]) == s[i];
    }
  }

  lemma SanitizeIdempotent(s: string)
    ensures Sanitize(Sanitize(s)) == Sanitize(s)
  {
    SanitizeName(Sanitize(s));
  }

  /** What the walk takes from one token: its sanitised candidate, empty when it has none. */
  function Proposal(token: string): (r: string)
    ensures |r| == |Candidate(token)| && IsName(r)
  {
    Sanitize(Candidate(token))
  }

  /** Scanning parts[..n] from the right: the proposal of the rightmost token
      that has a non-empty one, else the first token ("" if there is none). */
  function Scan(parts: seq<string>, n: nat, propose: string -> string): string
    requires n <= |parts|
    decreases n
  {
    if n == 0 then (if parts == [] then [] else parts[0])
    else if propose(parts[n - 1]) != [] then propose(parts[n - 1])
    else Scan(parts, n - 1, propose)
  }

  /** The token-branch name of parts[..n]. */
  function NameFromTokens(parts: seq<string>, n: nat): string
    requires n <= |parts|
  {
    Scan(parts, n, Proposal)
  }

  lemma {:induction false} ScanRightmost(parts: seq<string>, n: nat, k: nat, propose: string -> string)
    requires k < n <= |parts| && propose(parts[k]) != []
    requires forall j :: k < j < n ==> propose(parts[j]) == []
    ensures Scan(parts, n, propose) == propose(parts[k])
    decreases n
  {
    if n - 1 > k {
      ScanRightmost(parts, n - 1, k, propose);
    }
  }

  lemma {:induction false} ScanNone(parts: seq<string>, n: nat, propose: string -> string)
    requires n <= |parts|
    requires forall j :: 0 <= j < n ==> propose(parts[j]) == []
    ensures Scan(parts, n, propose) == (if parts == [] then [] else parts[0])
    decreases n
  {
    if n > 0 {
      ScanNone(parts, n - 1, propose);
    }
  }

  /** The rightmost token with a candidate names the server. */
  lemma RightmostCandidate(parts: seq<string>, n: nat, k: nat)
    requires k < n <= |parts| && Candidate(parts[k]) != []
    requires forall j :: k < j < n ==> Candidate(parts[j]) == []
    ensures NameFromTokens(parts, n) == Sanitize(Candidate(parts[k]))
  {
    assert Proposal(parts[k]) != [];
    forall j | k < j < n ensures Proposal(parts[j]) == [] {
      assert Candidate(parts[j]) == [];
    }
    ScanRightmost(parts, n, k, Proposal);
  }

  /** Without any candidate the first token is the name. */
  lemma NoCandidate(parts: seq<string>, n: nat)
    requires n <= |parts|
    requires forall j :: 0 <= j < n ==> Candidate(parts[j]) == []
    ensures NameFromTokens(parts, n) == (if parts == [] then [] else parts[0])
  {
    forall j | 0 <= j < n ensures Proposal(parts[j]) == [] {
      assert Candidate(parts[j]) == [];
    }
    ScanNone(parts, n, Proposal);
  }

  /** The URL branch over the tokens: the name from the first URL token, if it yields one. */
  function UrlNameOf(parts: seq<string>): Option<string> {
    var u := FirstUrl(parts);
    if u >= 0 then UrlName(parts[u]) else None
  }

  /** The name for a tokenised command line. */
  function NameOf(parts: seq<string>): string {
    match UrlNameOf(parts)
    case Some(name) => name
    case None => NameFromTokens(parts, |parts|)
  }

  /** What deriveNameFromCommand returns for `cmdLine`. */
  function DeriveName(cmdLine: string): string {
    NameOf(CommandTokens(cmdLine))
  }

  /** deriveNameFromCommand: tokenise, try the URL branch, else scan the tokens. */
  method DeriveNameFromCommand(cmdLine: string) returns (name: string)
    ensures name == DeriveName(cmdLine)
  {
    var parts := CommandTokens(cmdLine);
    var urlIdx := FirstUrl(parts);
    if urlIdx >= 0 {
      var hostname := UrlHostname(parts[urlIdx]);
      if hostname.Some? {
        var hostParts := KeptLabels(Split(hostname.value, '.'));
        if |hostParts| > 0 {
          return hostParts[0];
        }
      }
    }
    name := ScanTokens(parts, Proposal);
  }

  /** The backward walk of deriveNameFromCommand: from the last token to the
      first, the first non-empty proposal is the name; when every token is
      skipped, the first token, or "" when there is none.  `propose` is what
      the loop body computes for one token (Proposal: "" for a flag or an
      empty candidate, else the sanitised candidate). */
  method ScanTokens(parts: seq<string>, propose: string -> string) returns (name: string)
    ensures name == Scan(parts, |parts|, propose)
  {
    var i := |parts| - 1;
    while i >= 0
      invariant -1 <= i < |parts|
      invariant forall j :: i < j < |parts| ==> propose(parts[j]) == []
      decreases i + 1
    {
      var p := propose(parts[i]);
      if p != [] {
        ScanRightmost(parts, |parts|, i, propose);
        return p;
      }
      i := i - 1;
    }
    ScanNone(parts, |parts|, propose);
    name := if |parts| > 0 then parts[0] else [];
  }

  // ---------------------------------------------------------------------
  // Properties

  /** URL branch: the first URL token with a host that has a label other than
      "mcp"/"www" names the server after the first such label. */
  lemma UrlBranch(cmdLine: string, u: nat, host: string, k: nat)
    requires u < |CommandTokens(cmdLine)|
    requires IsUrlToken(CommandTokens(cmdLine)[u])
    requires forall j :: 0 <= j < u ==> !IsUrlToken(CommandTokens(cmdLine)[j])
    requires UrlHostname(CommandTokens(cmdLine)[u]) == Some(host)
    requires k < |Split(host, '.')| && !Ignorable(Split(host, '.')[k])
    requires forall j :: 0 <= j < k ==> Ignorable(Split(host, '.')[j])
    ensures DeriveName(cmdLine) == Split(host, '.')[k]
    ensures DeriveName(cmdLine) != [] ==> NoUpper(DeriveName(cmdLine))
  {
    var parts := CommandTokens(cmdLine);
    assert FirstUrl(parts) == u;
    FirstKeptLabel(Split(host, '.'), k);
    JoinSplit(host, '.');
    LabelOfLower(Split(host, '.'), k, host);
  }

  /** A label of a host without upper-case letters has none either. */
  lemma LabelOfLower(labels: seq<string>, k: nat, host: string)
    requires k < |labels| && Join(labels, '.') == host && NoUpper(host)
    ensures NoUpper(labels[k])
    decreases |labels|
  {
    if |labels| > 1 {
      var rest := Join(labels[1..], '.');
      assert host == labels[0] + ['.'] + rest;
      if k == 0 {
        forall i | 0 <= i < |labels[0]| ensures !('A' <= labels[0][i] <= 'Z') {
          assert labels[0][i] == host[i];
        }
      } else {
        forall i | 0 <= i < |rest| ensures !('A' <= rest[i] <= 'Z') {
          assert rest[i] == host[|labels[0]| + 1 + i];
        }
        LabelOfLower(labels[1..], k - 1, rest);
      }
    }
  }

  /** Token branch: without a URL name, the rightmost token with a non-empty
      candidate decides, and the name is non-empty and only [a-z0-9-]. */
  lemma TokenBranch(cmdLine: string, k: nat)
    requires UrlNameOf(CommandTokens(cmdLine)) == None
    requires k < |CommandTokens(cmdLine)| && Candidate(CommandTokens(cmdLine)[k]) != []
    requires forall j :: k < j < |CommandTokens(cmdLine)| ==> Candidate(CommandTokens(cmdLine)[j]) == []
    ensures DeriveName(cmdLine) == Sanitize(Candidate(CommandTokens(cmdLine)[k]))
    ensures DeriveName(cmdLine) != [] && IsName(DeriveName(cmdLine))
  {
    var parts := CommandTokens(cmdLine);
    RightmostCandidate(parts, |parts|, k);
  }

  /** Fallback: without a URL name or any candidate, the first token, or ""
      when the line is blank. */
  lemma Fallback(cmdLine: string)
    requires UrlNameOf(CommandTokens(cmdLine)) == None
    requires forall j :: 0 <= j < |CommandTokens(cmdLine)| ==> Candidate(CommandTokens(cmdLine)[j]) == []
    ensures DeriveName(cmdLine) == (if CommandTokens(cmdLine) == [] then [] else CommandTokens(cmdLine)[0])
  {
    var parts := CommandTokens(cmdLine);
    NoCandidate(parts, |parts|);
    TokensEmptyIffBlank(cmdLine);
  }

  lemma BlankLine(cmdLine: string)
    requires Blank(cmdLine)
    ensures DeriveName(cmdLine) == []
  {
    TokensEmptyIffBlank(cmdLine);
  }

  /** A flag never supplies the name through the token branch. */
  lemma FlagsSkipped(token: string)
    requires StartsWith(token, "-")
    ensures Candidate(token) == []
  {
  }

  /** The three prefixes come off in sequence. */
  lemma PrefixesInSequence(w: string)
    requires '/' !in w
    ensures Candidate("mcp-server-" + w) == StripPrefix(StripPrefix(w, "server-"), "mcp-")
    ensures Candidate("server-" + w) == StripPrefix(w, "mcp-")
  {
    var a := "mcp-server-" + w;
    assert a[..11] == "mcp-server-";
    assert a[11..] == w;
    assert '/' !in a by {
      forall i | 0 <= i < |a| ensures a[i] != '/' {
        if i >= 11 { assert a[i] == w[i - 11]; }
      }
    }
    assert !StartsWith(a, "-") by { assert a[0] == 'm'; }
    var b := "server-" + w;
    assert b[..7] == "server-";
    assert b[7..] == w;
    assert '/' !in b by {
      forall i | 0 <= i < |b| ensures b[i] != '/' {
        if i >= 7 { assert b[i] == w[i - 7]; }
      }
    }
    assert !StartsWith(b, "-") by { assert b[0] == 's'; }
    assert !StartsWith(b, "mcp-server-") by { assert b[0] == 's'; }
  }

  // ---------------------------------------------------------------------
  // The worked examples of the doc comments, each as an instance of a
  // lemma about every command line of the same shape

  lemma ThreeWords(a: string, b: string, c: string)
    requires a != [] && NoSpace(a) && b != [] && NoSpace(b) && c != [] && NoSpace(c)
    ensures CommandTokens(a + " " + b + " " + c) == [a, b, c]
  {
    var words := [a, b, c];
    assert words[1..][1..] == words[2..];
    assert Join(words[2..], ' ') == c;
    assert Join(words[1..], ' ') == b + " " + c;
    assert Join(words, ' ') == a + " " + b + " " + c;
    TokensOfJoin(words);
  }

  lemma FourWords(a: string, b: string, c: string, d: string)
    requires a != [] && NoSpace(a) && b != [] && NoSpace(b)
    requires c != [] && NoSpace(c) && d != [] && NoSpace(d)
    ensures CommandTokens(a + " " + b + " " + c + " " + d) == [a, b, c, d]
  {
    var words := [a, b, c, d];
    assert words[1..][1..] == words[2..];
    assert words[2..][1..] == words[3..];
    assert Join(words[3..], ' ') == d;
    assert Join(words[2..], ' ') == c + " " + d;
    assert Join(words[1..], ' ') == b + " " + c + " " + d;
    assert Join(words, ' ') == a + " " + b + " " + c + " " + d;
    TokensOfJoin(words);
  }

  lemma NameNoSpace(s: string)
    requires IsName(s)
    ensures NoSpace(s)
  {
    forall i | 0 <= i < |s| ensures !IsSpace(s[i]) {
      assert IsNameChar(s[i]);
    }
  }

  /** `server-<w>` proposes `<w>` when `<w>` has no further `mcp-` prefix. */
  lemma ServerPrefixed(w: string)
    requires IsName(w) && !StartsWith(w, "mcp-")
    ensures Candidate("server-" + w) == w
    ensures NoSpace("server-" + w) && '/' !in "server-" + w && !IsUrlToken("server-" + w)
  {
    var b := "server-" + w;
    assert b[..7] == "server-";
    assert b[7..] == w;
    forall i | 0 <= i < |b| ensures b[i] != '/' && !IsSpace(b[i]) {
      if i >= 7 { assert b[i] == w[i - 7]; assert IsNameChar(w[i - 7]); }
    }
    assert !StartsWith(b, "-") by { assert b[0] == 's'; }
    assert !StartsWith(b, "mcp-server-") by { assert b[0] == 's'; }
    assert !IsUrlToken(b) by { assert b[0] == 's'; }
  }

  /** `<scope>/server-<w>` is a single token that proposes `<w>`. */
  lemma ScopedPackage(scope: string, w: string)
    requires scope != [] && scope[0] == '@' && NoSpace(scope) && '/' !in scope
    requires IsName(w) && !StartsWith(w, "mcp-")
    ensures NoSpace(scope + "/server-" + w) && !IsUrlToken(scope + "/server-" + w)
    ensures Candidate(scope + "/server-" + w) == w
  {
    var tail := "server-" + w;
    var pkg := scope + "/" + tail;
    ScopedSpelling(scope, w);
    ServerPrefixed(w);
    NoSpaceAroundSlash(scope, tail);
    assert pkg[0] == '@';
    NeitherUrlNorFlag(pkg);
    LastSegmentAfterSlash(scope, tail);
  }

  /** A token starting with neither 'h' nor '-' is no URL and no flag. */
  lemma NeitherUrlNorFlag(p: string)
    requires p != [] && p[0] != 'h' && p[0] != '-'
    ensures !IsUrlToken(p) && !StartsWith(p, "-")
  {
    assert "http://"[0] == 'h' && "https://"[0] == 'h';
  }

  lemma ScopedSpelling(scope: string, w: string)
    ensures scope + "/server-" + w == scope + "/" + ("server-" + w)
  {
    assert "/server-" == "/" + "server-";
  }

  lemma NoSpaceAroundSlash(a: string, b: string)
    requires NoSpace(a) && NoSpace(b)
    ensures NoSpace(a + "/" + b)
  {
    var s := a + "/" + b;
    forall i | 0 <= i < |s| ensures !IsSpace(s[i]) {
      if i < |a| { assert s[i] == a[i]; }
      else if i > |a| { assert s[i] == b[i - |a| - 1]; }
    }
  }

  /** The segment after the only '/' is the last one. */
  lemma LastSegmentAfterSlash(a: string, b: string)
    requires '/' !in a && '/' !in b
    ensures LastSegment(a + "/" + b) == b
  {
    IndexOfAfterPrefix(a, '/', b);
    assert (a + "/" + b)[|a| + 1..] == b;
  }

  lemma ScopedLineTokens(scope: string, w: string)
    requires NoSpace(scope + "/server-" + w) && scope != []
    ensures CommandTokens("npx -y " + scope + "/server-" + w) == ["npx", "-y", scope + "/server-" + w]
  {
    var pkg := scope + "/server-" + w;
    assert "npx -y " + scope + "/server-" + w == "npx" + " " + "-y" + " " + pkg;
    ThreeWords("npx", "-y", pkg);
  }

  lemma ScopedNameOf(scope: string, w: string)
    requires !IsUrlToken(scope + "/server-" + w) && Candidate(scope + "/server-" + w) == w
    requires w != [] && IsName(w)
    ensures NameOf(["npx", "-y", scope + "/server-" + w]) == w
  {
    var words := ["npx", "-y", scope + "/server-" + w];
    assert FirstUrl(words) == -1;
    SanitizeName(w);
    RightmostCandidate(words, 3, 2);
  }

  /** `npx -y <scope>/server-<w>` is named `<w>`. */
  lemma ScopedServerPackage(scope: string, w: string)
    requires scope != [] && scope[0] == '@' && NoSpace(scope) && '/' !in scope
    requires w != [] && IsName(w) && !StartsWith(w, "mcp-")
    ensures DeriveName("npx -y " + scope + "/server-" + w) == w
  {
    ScopedPackage(scope, w);
    ScopedLineTokens(scope, w);
    ScopedNameOf(scope, w);
  }

  /** The doc comment's example. */
  lemma MemoryExample()
    ensures DeriveName("npx -y " + "@modelcontextprotocol" + "/server-" + "memory") == "memory"
  {
    assert !StartsWith("memory", "mcp-") by { assert "memory"[1] == 'e'; }
    ScopedServerPackage("@modelcontextprotocol", "memory");
  }

  /** The host `mcp.<w>.<tld>` is made of name characters and dots. */
  lemma RemoteHostChars(w: string, tld: string)
    requires IsName(w) && IsName(tld)
    ensures forall i :: 0 <= i < |"mcp." + w + "." + tld| ==>
      IsNameChar(("mcp." + w + "." + tld)[i]) || ("mcp." + w + "." + tld)[i] == '.'
  {
    var host := "mcp." + w + "." + tld;
    forall i | 0 <= i < |host|
      ensures IsNameChar(host[i]) || host[i] == '.'
    {
      if 4 <= i < 4 + |w| { assert host[i] == w[i - 4]; }
      else if i > 4 + |w| { assert host[i] == tld[i - 5 - |w|]; }
    }
  }

  /** The authority of `https://<host>/mcp` is `<host>` when the host holds
      no '/', '\', '?' or '#'. */
  lemma AuthorityOfHttps(host: string)
    requires host != []
    requires forall i :: 0 <= i < |host| ==> IsNameChar(host[i]) || host[i] == '.'
    ensures IsUrlToken("https://" + host + "/mcp") && Authority("https://" + host + "/mcp") == host
  {
    var url := "https://" + host + "/mcp";
    var rest := host + "/mcp";
    assert url[..8] == "https://";
    assert !StartsWith(url, "http://") by { assert url[4] == 's'; }
    assert url[8..] == rest;
    assert rest[0] == host[0];
    assert !IsSlash(rest[0]);
    SpanExact(rest, IsSlash, 0);
    assert rest[|host|] == '/';
    forall i | 0 <= i < |host| ensures InAuthority(rest[i]) {
      assert rest[i] == host[i];
    }
    SpanExact(rest, InAuthority, |host|);
    assert rest[..|host|] == host;
  }

  /** Such a host is its own hostname. */
  lemma HostnameOfHttps(host: string)
    requires host != []
    requires forall i :: 0 <= i < |host| ==> IsNameChar(host[i]) || host[i] == '.'
    ensures UrlHostname("https://" + host + "/mcp") == Some(host)
  {
    AuthorityOfHttps(host);
    assert '@' !in host;
    assert ':' !in host;
    assert Split(host, '@') == [host];
    assert IndexOf(host, ':') == -1;
    assert !exists i :: 0 <= i < |host| && ForbiddenInHost(host[i]);
    assert AllDigits([]);
    forall i | 0 <= i < |host| ensures ToLower(host)[i] == host[i] {
      assert LowerChar(host[i]) == host[i];
    }
    assert ToLower(host) == host;
  }

  /** The labels of `mcp.<w>.<tld>` keep `<w>` first. */
  lemma RemoteLabels(w: string, tld: string)
    requires IsName(w) && !Ignorable(w) && IsName(tld)
    ensures var kept := KeptLabels(Split("mcp." + w + "." + tld, '.')); kept != [] && kept[0] == w
  {
    var labels := ["mcp", w, tld];
    assert '.' !in w by { forall i | 0 <= i < |w| ensures w[i] != '.' { assert IsNameChar(w[i]); } }
    assert '.' !in tld by { forall i | 0 <= i < |tld| ensures tld[i] != '.' { assert IsNameChar(tld[i]); } }
    assert labels[1..][1..] == [tld];
    assert Join([tld], '.') == tld;
    assert Join(labels[1..], '.') == w + "." + tld;
    assert Join(labels, '.') == "mcp." + w + "." + tld;
    SplitJoin(labels, '.');
    FirstKeptLabel(labels, 1);
  }

  /** `https://mcp.<w>.<tld>/mcp` is a URL token whose name is `<w>`. */
  lemma RemoteUrl(w: string, tld: string)
    requires w != [] && IsName(w) && !Ignorable(w)
    requires tld != [] && IsName(tld)
    ensures IsUrlToken("https://mcp." + w + "." + tld + "/mcp")
    ensures UrlName("https://mcp." + w + "." + tld + "/mcp") == Some(w)
  {
    var host := "mcp." + w + "." + tld;
    RemoteHostChars(w, tld);
    assert "https://mcp." + w + "." + tld + "/mcp" == "https://" + host + "/mcp";
    AuthorityOfHttps(host);
    HostnameOfHttps(host);
    RemoteLabels(w, tld);
  }

  lemma RemoteLineTokens(w: string, tld: string)
    requires IsName(w) && IsName(tld)
    ensures CommandTokens("npx -y mcp-remote https://mcp." + w + "." + tld + "/mcp")
      == ["npx", "-y", "mcp-remote", "https://mcp." + w + "." + tld + "/mcp"]
  {
    var url := "https://mcp." + w + "." + tld + "/mcp";
    NameNoSpace(w);
    NameNoSpace(tld);
    assert NoSpace(url) by {
      forall i | 0 <= i < |url| ensures !IsSpace(url[i]) {
        if 12 <= i < 12 + |w| { assert url[i] == w[i - 12]; }
        else if 13 + |w| <= i < 13 + |w| + |tld| { assert url[i] == tld[i - 13 - |w|]; }
      }
    }
    assert "npx -y mcp-remote https://mcp." + w + "." + tld + "/mcp"
      == "npx" + " " + "-y" + " " + "mcp-remote" + " " + url;
    FourWords("npx", "-y", "mcp-remote", url);
  }

  lemma RemoteLineUrl(url: string)
    requires IsUrlToken(url)
    ensures FirstUrl(["npx", "-y", "mcp-remote", url]) == 3
  {
    var words := ["npx", "-y", "mcp-remote", url];
    assert !IsUrlToken("mcp-remote") by { assert "mcp-remote"[0] == 'm'; }
    assert words[1..][1..] == words[2..] && words[2..][1..] == words[3..];
    assert FirstUrl(words[3..]) == 0;
    assert FirstUrl(words[2..]) == 1;
    assert FirstUrl(words[1..]) == 2;
  }

  lemma RemoteNameOf(w: string, tld: string)
    requires w != [] && IsName(w) && !Ignorable(w)
    requires tld != [] && IsName(tld)
    ensures NameOf(["npx", "-y", "mcp-remote", "https://mcp." + w + "." + tld + "/mcp"]) == w
  {
    RemoteUrl(w, tld);
    RemoteLineUrl("https://mcp." + w + "." + tld + "/mcp");
  }

  /** `npx -y mcp-remote https://mcp.<w>.<tld>/mcp` is named `<w>`. */
  lemma RemoteServer(w: string, tld: string)
    requires w != [] && IsName(w) && !Ignorable(w)
    requires tld != [] && IsName(tld)
    ensures DeriveName("npx -y mcp-remote https://mcp." + w + "." + tld + "/mcp") == w
  {
    RemoteLineTokens(w, tld);
    RemoteNameOf(w, tld);
  }

  /** The URL branch's example. */
  lemma LinearExample()
    ensures DeriveName("npx -y mcp-remote https://mcp." + "linear" + "." + "app" + "/mcp") == "linear"
  {
    RemoteServer("linear", "app");
  }

  lemma FlagLineTokens(w: string, flag: string)
    requires IsName(w) && !StartsWith(w, "mcp-") && NoSpace(flag)
    ensures CommandTokens("npx -y server-" + w + " --" + flag) == ["npx", "-y", "server-" + w, "--" + flag]
  {
    var server := "server-" + w;
    var option := "--" + flag;
    ServerPrefixed(w);
    assert NoSpace(option) by {
      forall i | 0 <= i < |option| ensures !IsSpace(option[i]) {
        if i >= 2 { assert option[i] == flag[i - 2]; }
      }
    }
    assert "npx -y server-" + w + " --" + flag == "npx" + " " + "-y" + " " + server + " " + option;
    FourWords("npx", "-y", server, option);
  }

  lemma FlagNameOf(w: string, flag: string)
    requires w != [] && IsName(w) && !StartsWith(w, "mcp-")
    ensures NameOf(["npx", "-y", "server-" + w, "--" + flag]) == w
  {
    var option := "--" + flag;
    ServerPrefixed(w);
    var words := ["npx", "-y", "server-" + w, option];
    assert !IsUrlToken(option) by { assert option[0] == '-'; }
    assert FirstUrl(words) == -1;
    assert StartsWith(option, "-");
    SanitizeName(w);
    RightmostCandidate(words, 4, 2);
  }

  /** `npx -y server-<w> --<flag>`: the trailing flag is skipped and `<w>` names the server. */
  lemma ServerBeforeFlag(w: string, flag: string)
    requires w != [] && IsName(w) && !StartsWith(w, "mcp-") && NoSpace(flag)
    ensures DeriveName("npx -y server-" + w + " --" + flag) == w
  {
    FlagLineTokens(w, flag);
    FlagNameOf(w, flag);
  }

  lemma FlagAfterNameExample()
    ensures DeriveName("npx -y server-" + "foo" + " --" + "flag") == "foo"
  {
    ServerBeforeFlag("foo", "flag");
  }
}
