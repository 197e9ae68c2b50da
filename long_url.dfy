/** The long-URL schema: screening of the raw string, then a transform that
    parses, checks and normalises the URL and serialises it again. URL parsing
    and serialisation, percent-decoding and the key order of `localeCompare`
    are parameters (`UrlEnv`). */
module LongUrl {
  import opened Wrappers
  import Text

  /** The parts of a parsed URL the transform reads or writes. `port` is None
      when the URL has no explicit port. */
  datatype UrlParts = UrlParts(protocol: string, username: string, password: string,
                               hostname: string, port: Option<nat>, pathname: string,
                               params: seq<(string, string)>, hash: string)

  /** The schema factory's options. */
  datatype Options = Options(maxLength: nat, allowHash: bool, stripTrackingParams: bool,
                             shortDomain: Option<string>, allowNonStandardPorts: bool)

  /** The configuration every handler uses; `shortDomain` is the configured base URL. */
  function ServiceOptions(shortDomain: Option<string>): Options {
    Options(2048, true, true, shortDomain, false)
  }

  /** `new URL(s)` (None when it throws), `url.toString()`, `decodeURIComponent`
      (None when it throws), and `localeCompare(a, b) <= 0`. */
  datatype UrlEnv = UrlEnv(parse: string -> Option<UrlParts>, serialize: UrlParts -> string,
                           decodeComponent: string -> Option<string>, keyLe: (string, string) -> bool)

  /** The comparator is total: every two keys are ordered one way or the other. */
  ghost predicate TotalOrder(keyLe: (string, string) -> bool) {
    forall a, b :: keyLe(a, b) || keyLe(b, a)
  }

  const TrackingParams: seq<string> := ["utm_source", "utm_medium", "utm_campaign", "utm_term", "utm_content"]

  // ---------------------------------------------------------------- screening

  /** `[\u0000-\u001F\u007F]` */
  predicate IsControl(c: char) {
    c <= '\U{001F}' || c == '\U{007F}'
  }

  predicate HasControl(s: string) {
    exists k :: 0 <= k < |s| && IsControl(s[k])
  }

  /** `[\r\n  ]` */
  predicate HasLineTerminator(s: string) {
    exists k :: 0 <= k < |s| && Text.IsLineTerminator(s[k])
  }

  /** `\\[rn]` with the `i` flag: a backslash followed by r, n, R or N. */
  predicate HasEscapedNewline(s: string) {
    exists k :: 0 <= k < |s| - 1 && s[k] == '\\' && s[k + 1] in "rnRN"
  }

  /** `%0d|%0a` with the `i` flag. */
  predicate HasEncodedNewline(s: string) {
    exists k :: 0 <= k < |s| - 2 && s[k] == '%' && s[k + 1] == '0' && s[k + 2] in "dDaA"
  }

  /** `hasDangerousNewlines`: a raw line terminator, an escaped or percent-encoded
      CR/LF, or a line terminator after percent-decoding (a decoding error counts as none). */
  predicate HasDangerousNewlines(env: UrlEnv, s: string) {
    || HasLineTerminator(s)
    || HasEscapedNewline(s)
    || HasEncodedNewline(s)
    || (env.decodeComponent(s).Some? && HasLineTerminator(env.decodeComponent(s).value))
  }

  /** `getEffectivePort`: the explicit port, else 443 for https and 80 otherwise. */
  function EffectivePort(u: UrlParts): (p: nat)
    ensures u.port.Some? ==> p == u.port.value
    ensures u.port.None? ==> (p == 443 <==> u.protocol == "https:") && (p != 443 ==> p == 80)
  {
    if u.port.Some? then u.port.value else if u.protocol == "https:" then 443 else 80
  }

  // ---------------------------------------------------------------- normalisation steps

  /** `replace(/\.$/, '')`: at most one trailing dot goes. */
  function DropTrailingDot(h: string): (r: string)
    ensures h != [] && h[|h| - 1] == '.' ==> r + "." == h
    ensures !(h != [] && h[|h| - 1] == '.') ==> r == h
  {
    if h != [] && h[|h| - 1] == '.' then h[..|h| - 1] else h
  }

  /** `replace(/\/{2,}/g, '/')`: every run of slashes becomes one slash. */
  function CollapseSlashes(p: string): string {
    if |p| >= 2 && p[0] == '/' && p[1] == '/' then CollapseSlashes(p[1..])
    else if p == [] then [] else [p[0]] + CollapseSlashes(p[1..])
  }

  predicate NoDoubleSlash(p: string) {
    forall k :: 0 <= k < |p| - 1 ==> !(p[k] == '/' && p[k + 1] == '/')
  }

  function NonSlash(p: string): string {
    if p == [] then [] else (if p[0] == '/' then [] else [p[0]]) + NonSlash(p[1..])
  }

  lemma {:induction false} CollapseHead(p: string)
    ensures |CollapseSlashes(p)| <= |p|
    ensures (CollapseSlashes(p) == []) == (p == [])
    ensures p != [] ==> CollapseSlashes(p)[0] == p[0]
  {
    if |p| >= 2 && p[0] == '/' && p[1] == '/' {
      CollapseHead(p[1..]);
    } else if p != [] {
      CollapseHead(p[1..]);
    }
  }

  /** After collapsing no two slashes are adjacent, the characters other than
      slashes are those of the input in order, and collapsing again changes nothing. */
  lemma {:induction false} CollapseSlashesMeaning(p: string)
    ensures NoDoubleSlash(CollapseSlashes(p))
    ensures NonSlash(CollapseSlashes(p)) == NonSlash(p)
    ensures NoDoubleSlash(p) ==> CollapseSlashes(p) == p
  {
    if |p| >= 2 && p[0] == '/' && p[1] == '/' {
      CollapseSlashesMeaning(p[1..]);
      assert NonSlash(p) == NonSlash(p[1..]);
    } else if p != [] {
      CollapseSlashesMeaning(p[1..]);
      CollapseHead(p[1..]);
      var c := CollapseSlashes(p);
      var t := CollapseSlashes(p[1..]);
      assert c == [p[0]] + t;
      forall k | 0 <= k < |c| - 1 ensures !(c[k] == '/' && c[k + 1] == '/') {
        if k > 0 { assert c[k] == t[k - 1] && c[k + 1] == t[k]; }
      }
      assert c[1..] == t;
      if NoDoubleSlash(p) {
        assert NoDoubleSlash(p[1..]) by {
          forall k | 0 <= k < |p[1..]| - 1 ensures !(p[1..][k] == '/' && p[1..][k + 1] == '/') {
            assert p[1..][k] == p[k + 1] && p[1..][k + 1] == p[k + 2];
          }
        }
        assert [p[0]] + p[1..] == p;
      }
    }
  }

  /** `searchParams.delete(name)`: every entry with that key goes, the rest keep their order. */
  function WithoutKey(ps: seq<(string, string)>, name: string): seq<(string, string)> {
    if ps == [] then [] else (if ps[0].0 == name then [] else [ps[0]]) + WithoutKey(ps[1..], name)
  }

  /** The entries whose key is not in `names`, in order. */
  function WithoutKeys(ps: seq<(string, string)>, names: seq<string>): seq<(string, string)> {
    if ps == [] then [] else (if ps[0].0 in names then [] else [ps[0]]) + WithoutKeys(ps[1..], names)
  }

  /** Removing keys keeps exactly the entries with other keys. */
  lemma {:induction false} WithoutKeysMembers(ps: seq<(string, string)>, names: seq<string>)
    ensures forall e :: e in WithoutKeys(ps, names) <==> e in ps && e.0 !in names
  {
    if ps != [] {
      WithoutKeysMembers(ps[1..], names);
      assert ps == [ps[0]] + ps[1..];
    }
  }

  lemma {:induction false} WithoutNoKeys(ps: seq<(string, string)>)
    ensures WithoutKeys(ps, []) == ps
  {
    if ps != [] {
      WithoutNoKeys(ps[1..]);
      assert ps == [ps[0]] + ps[1..];
    }
  }

  lemma {:induction false} WithoutKeysStep(ps: seq<(string, string)>, names: seq<string>, name: string)
    ensures WithoutKey(WithoutKeys(ps, names), name) == WithoutKeys(ps, names + [name])
  {
    if ps != [] {
      WithoutKeysStep(ps[1..], names, name);
      var w := WithoutKeys(ps, names);
      var w1 := WithoutKeys(ps[1..], names);
      if ps[0].0 in names {
        assert w == w1;
        assert ps[0].0 in names + [name];
      } else {
        assert w == [ps[0]] + w1;
        assert w[1..] == w1;
        assert WithoutKey(w, name) == (if ps[0].0 == name then [] else [ps[0]]) + WithoutKey(w1, name);
        assert (ps[0].0 in names + [name]) == (ps[0].0 == name);
      }
    }
  }

  predicate SortedByKey(ps: seq<(string, string)>, keyLe: (string, string) -> bool) {
    forall k :: 0 <= k < |ps| - 1 ==> keyLe(ps[k].0, ps[k + 1].0)
  }

  /** Places `e` before the first entry whose key is not below it. */
  function InsertByKey(e: (string, string), ps: seq<(string, string)>, keyLe: (string, string) -> bool): seq<(string, string)> {
    if ps == [] then [e]
    else if keyLe(e.0, ps[0].0) then [e] + ps
    else [ps[0]] + InsertByKey(e, ps[1..], keyLe)
  }

  /** `Array.from(entries).sort(([a], [b]) => a.localeCompare(b))`. */
  function SortByKey(ps: seq<(string, string)>, keyLe: (string, string) -> bool): seq<(string, string)> {
    if ps == [] then [] else InsertByKey(ps[0], SortByKey(ps[1..], keyLe), keyLe)
  }

  lemma {:induction false} InsertByKeySorted(e: (string, string), ps: seq<(string, string)>, keyLe: (string, string) -> bool)
    requires TotalOrder(keyLe) && SortedByKey(ps, keyLe)
    ensures SortedByKey(InsertByKey(e, ps, keyLe), keyLe)
    ensures InsertByKey(e, ps, keyLe) != [] && (InsertByKey(e, ps, keyLe)[0] == e || (ps != [] && InsertByKey(e, ps, keyLe)[0] == ps[0]))
  {
    if ps != [] && !keyLe(e.0, ps[0].0) {
      var rest := ps[1..];
      SortedTail(ps, keyLe);
      InsertByKeySorted(e, rest, keyLe);
      var t := InsertByKey(e, rest, keyLe);
      assert keyLe(ps[0].0, e.0);
      SortedCons(ps[0], t, keyLe);
    } else if ps != [] {
      SortedCons(e, ps, keyLe);
    }
  }

  lemma {:induction false} InsertByKeyKeeps(e: (string, string), ps: seq<(string, string)>, keyLe: (string, string) -> bool)
    ensures multiset(InsertByKey(e, ps, keyLe)) == multiset(ps) + multiset{e}
  {
    if ps != [] && !keyLe(e.0, ps[0].0) {
      InsertByKeyKeeps(e, ps[1..], keyLe);
      assert ps == [ps[0]] + ps[1..];
    }
  }

  lemma SortedTail(ps: seq<(string, string)>, keyLe: (string, string) -> bool)
    requires ps != [] && SortedByKey(ps, keyLe)
    ensures SortedByKey(ps[1..], keyLe)
  {
    var rest := ps[1..];
    forall k | 0 <= k < |rest| - 1 ensures keyLe(rest[k].0, rest[k + 1].0) {
      assert rest[k] == ps[k + 1] && rest[k + 1] == ps[k + 2];
    }
  }

  lemma SortedCons(x: (string, string), t: seq<(string, string)>, keyLe: (string, string) -> bool)
    requires SortedByKey(t, keyLe) && (t != [] ==> keyLe(x.0, t[0].0))
    ensures SortedByKey([x] + t, keyLe)
  {
    var r := [x] + t;
    forall k | 0 <= k < |r| - 1 ensures keyLe(r[k].0, r[k + 1].0) {
      if k > 0 { assert r[k] == t[k - 1] && r[k + 1] == t[k]; }
    }
  }

  /** The sort orders the entries by key and keeps every entry (as a multiset). */
  lemma {:induction false} SortByKeyMeaning(ps: seq<(string, string)>, keyLe: (string, string) -> bool)
    requires TotalOrder(keyLe)
    ensures SortedByKey(SortByKey(ps, keyLe), keyLe)
    ensures multiset(SortByKey(ps, keyLe)) == multiset(ps)
  {
    if ps != [] {
      SortByKeyMeaning(ps[1..], keyLe);
      InsertByKeySorted(ps[0], SortByKey(ps[1..], keyLe), keyLe);
      InsertByKeyKeeps(ps[0], SortByKey(ps[1..], keyLe), keyLe);
      assert ps == [ps[0]] + ps[1..];
    }
  }

  /** The URL after the transform's in-place updates, for a URL that passed its checks. */
  function Normalized(u: UrlParts, opts: Options, keyLe: (string, string) -> bool): UrlParts {
    var hostname := Text.ToLower(DropTrailingDot(u.hostname));
    var port := if (u.protocol == "http:" && u.port == Some(80)) || (u.protocol == "https:" && u.port == Some(443))
                then None else u.port;
    var pathname := CollapseSlashes(if u.pathname == "" then "/" else u.pathname);
    var params := if opts.stripTrackingParams then SortByKey(WithoutKeys(u.params, TrackingParams), keyLe) else u.params;
    var hash := if opts.allowHash then u.hash else "";
    UrlParts(u.protocol, u.username, u.password, hostname, port, pathname, params, hash)
  }

  /** Why the transform throws. */
  datatype TransformError = InvalidUrl | UnsupportedScheme | HasCredentials | PortNotAllowed
                          | ShortDomainTarget | TooLong

  predicate TargetsShortDomain(hostname: string, shortDomain: Option<string>) {
    shortDomain.Some? && shortDomain.value != "" &&
    var sd := Text.ToLower(shortDomain.value);
    hostname == sd || Text.EndsWith(hostname, "." + sd)
  }

  /** The transform, check by check in the source's order. */
  function TransformSpec(raw: string, opts: Options, env: UrlEnv): Result<string, TransformError> {
    match env.parse(raw)
    case None => Failure(InvalidUrl)
    case Some(u) =>
      if u.protocol != "http:" && u.protocol != "https:" then Failure(UnsupportedScheme)
      else if u.username != "" || u.password != "" then Failure(HasCredentials)
      else if !opts.allowNonStandardPorts && EffectivePort(u) != 80 && EffectivePort(u) != 443 then Failure(PortNotAllowed)
      else
        var n := Normalized(u, opts, env.keyLe);
        if TargetsShortDomain(n.hostname, opts.shortDomain) then Failure(ShortDomainTarget)
        else
          var out := env.serialize(n);
          if Text.Utf16Length(out) > opts.maxLength then Failure(TooLong) else Success(out)
  }

  /** The normalised URL: its host is lower-case and has lost one trailing dot;
      a default port is gone and the effective port is unchanged; its path is
      not empty and has no doubled slash; with tracking stripping on, no
      tracking key is left and the entries are sorted by key and are exactly
      the non-tracking entries of the input; scheme and credentials are kept. */
  lemma NormalizeMeaning(u: UrlParts, opts: Options, keyLe: (string, string) -> bool)
    requires TotalOrder(keyLe)
    ensures var n := Normalized(u, opts, keyLe);
      && n.protocol == u.protocol && n.username == u.username && n.password == u.password
      && (forall k :: 0 <= k < |n.hostname| ==> !Text.IsAsciiUpper(n.hostname[k]))
      && |n.hostname| <= |u.hostname|
      && !(u.protocol == "http:" && n.port == Some(80)) && !(u.protocol == "https:" && n.port == Some(443))
      && (n.port.Some? ==> n.port == u.port) && EffectivePort(n) == EffectivePort(u)
      && NoDoubleSlash(n.pathname) && n.pathname != []
      && (opts.stripTrackingParams ==>
            && SortedByKey(n.params, keyLe)
            && (forall e :: e in n.params ==> e.0 !in TrackingParams)
            && multiset(n.params) == multiset(WithoutKeys(u.params, TrackingParams)))
      && (!opts.stripTrackingParams ==> n.params == u.params)
      && n.hash == (if opts.allowHash then u.hash else "")
  {
    var n := Normalized(u, opts, keyLe);
    var p := if u.pathname == "" then "/" else u.pathname;
    CollapseSlashesMeaning(p);
    CollapseHead(p);
    if opts.stripTrackingParams {
      var w := WithoutKeys(u.params, TrackingParams);
      SortByKeyMeaning(w, keyLe);
      WithoutKeysMembers(u.params, TrackingParams);
      forall e | e in n.params ensures e.0 !in TrackingParams {
        assert e in multiset(n.params);
        assert e in w;
      }
    }
  }

  /** What the transform accepts: a parsed http(s) URL without credentials on an
      allowed port whose normalised host is not the short domain and whose
      serialisation fits `maxLength`; the output is that serialisation. */
  lemma TransformAccepts(raw: string, opts: Options, env: UrlEnv)
    ensures TransformSpec(raw, opts, env).Success? <==>
      && env.parse(raw).Some?
      && var u := env.parse(raw).value;
      && (u.protocol == "http:" || u.protocol == "https:")
      && u.username == "" && u.password == ""
      && (opts.allowNonStandardPorts || EffectivePort(u) in {80, 443})
      && !TargetsShortDomain(Normalized(u, opts, env.keyLe).hostname, opts.shortDomain)
      && Text.Utf16Length(env.serialize(Normalized(u, opts, env.keyLe))) <= opts.maxLength
    ensures TransformSpec(raw, opts, env).Success? ==>
      TransformSpec(raw, opts, env).value == env.serialize(Normalized(env.parse(raw).value, opts, env.keyLe))
  {
  }

  // ---------------------------------------------------------------- the URL object

  /** The `URL` object the transform updates field by field. */
  class UrlObject {
    var protocol: string
    var username: string
    var password: string
    var hostname: string
    var port: Option<nat>
    var pathname: string
    var params: seq<(string, string)>
    var hash: string

    constructor (u: UrlParts)
      ensures Parts() == u
    {
      protocol, username, password, hostname := u.protocol, u.username, u.password, u.hostname;
      port, pathname, params, hash := u.port, u.pathname, u.params, u.hash;
    }

    function Parts(): UrlParts
      reads this
    {
      UrlParts(protocol, username, password, hostname, port, pathname, params, hash)
    }

    /** `url.searchParams.delete(name)` */
    method DeleteParam(name: string)
      modifies this
      ensures Parts() == old(Parts()).(params := WithoutKey(old(params), name))
    {
      params := WithoutKey(params, name);
    }

    /** Hostname: one trailing dot removed, then lower-cased. */
    method NormalizeHostname()
      modifies this
      ensures Parts() == old(Parts()).(hostname := Text.ToLower(DropTrailingDot(old(hostname))))
    {
      hostname := Text.ToLower(DropTrailingDot(hostname));
    }

    /** The scheme's default port is removed. */
    method DropDefaultPort()
      modifies this
      ensures Parts() == old(Parts()).(port :=
        if (protocol == "http:" && old(port) == Some(80)) || (protocol == "https:" && old(port) == Some(443))
        then None else old(port))
    {
      if (protocol == "http:" && port == Some(80)) || (protocol == "https:" && port == Some(443)) {
        port := None;
      }
    }

    /** An empty path becomes "/", then slash runs collapse. */
    method NormalizePathname()
      modifies this
      ensures Parts() == old(Parts()).(pathname := CollapseSlashes(if old(pathname) == "" then "/" else old(pathname)))
    {
      if pathname == "" {
        pathname := "/";
      }
      pathname := CollapseSlashes(pathname);
    }

    /** The loop over the tracking keys, then the re-sorted query. */
    method StripTrackingParams(keyLe: (string, string) -> bool)
      modifies this
      ensures Parts() == old(Parts()).(params := SortByKey(WithoutKeys(old(params), TrackingParams), keyLe))
    {
      ghost var before := Parts();
      WithoutNoKeys(before.params);
      assert TrackingParams[..0] == [];
      for i := 0 to |TrackingParams|
        invariant Parts() == before.(params := WithoutKeys(before.params, TrackingParams[..i]))
      {
        WithoutKeysStep(before.params, TrackingParams[..i], TrackingParams[i]);
        assert TrackingParams[..i + 1] == TrackingParams[..i] + [TrackingParams[i]];
        DeleteParam(TrackingParams[i]);
      }
      assert TrackingParams[..|TrackingParams|] == TrackingParams;
      params := SortByKey(params, keyLe);
    }

    /** The in-place updates of the transform, in its order. */
    method Normalize(opts: Options, keyLe: (string, string) -> bool)
      modifies this
      ensures Parts() == Normalized(old(Parts()), opts, keyLe)
    {
      NormalizeHostname();
      DropDefaultPort();
      NormalizePathname();
      if opts.stripTrackingParams {
        StripTrackingParams(keyLe);
      }
      if !opts.allowHash {
        hash := "";
      }
    }
  }

  /** The `.transform` callback: parse, check, then update the URL object in place. */
  method Transform(raw: string, opts: Options, env: UrlEnv) returns (r: Result<string, TransformError>)
    ensures r == TransformSpec(raw, opts, env)
  {
    var parsed := env.parse(raw);
    if parsed.None? {
      return Failure(InvalidUrl);
    }
    var url := new UrlObject(parsed.value);
    if url.protocol != "http:" && url.protocol != "https:" {
      return Failure(UnsupportedScheme);
    }
    if url.username != "" || url.password != "" {
      return Failure(HasCredentials);
    }
    var port := EffectivePort(url.Parts());
    if !opts.allowNonStandardPorts && port != 80 && port != 443 {
      return Failure(PortNotAllowed);
    }
    url.Normalize(opts, env.keyLe);
    if TargetsShortDomain(url.hostname, opts.shortDomain) {
      return Failure(ShortDomainTarget);
    }
    var out := env.serialize(url.Parts());
    if Text.Utf16Length(out) > opts.maxLength {
      return Failure(TooLong);
    }
    return Success(out);
  }

  // ---------------------------------------------------------------- safeParse

  /** The checks before the transform; each failing one adds an issue. The
      newline check runs only when there is no control character. Length is
      measured before trimming. */
  datatype Issue = ControlCharacters | DangerousNewlines | Empty | TooLongInput

  function Issues(v: string, opts: Options, env: UrlEnv): seq<Issue> {
    (if HasControl(v) then [ControlCharacters] else if HasDangerousNewlines(env, v) then [DangerousNewlines] else [])
    + (if |v| < 1 then [Empty] else [])
    + (if Text.Utf16Length(v) > opts.maxLength then [TooLongInput] else [])
  }

  /** What `safeParse` does as written: a throw inside the transform is not turned
      into an issue, so it escapes `safeParse` itself. */
  datatype ParseOutcome = Parsed(data: string) | Rejected(issues: seq<Issue>) | Threw(error: TransformError)

  function SafeParseAsWritten(v: string, opts: Options, env: UrlEnv): ParseOutcome {
    var issues := Issues(v, opts, env);
    if issues != [] then Rejected(issues)
    else match TransformSpec(Text.Trim(v), opts, env)
      case Success(out) => Parsed(out)
      case Failure(e) => Threw(e)
  }

  /** A string that passes the screening but does not parse makes `safeParse`
      throw instead of returning a failure. */
  lemma SafeParseThrowsOnBadUrl(opts: Options, env: UrlEnv)
    requires env.parse("nope") == None && env.decodeComponent("nope") == Some("nope") && opts.maxLength >= 8
    ensures SafeParseAsWritten("nope", opts, env) == Threw(InvalidUrl)
  {
    NopeScreensClean(opts, env);
    Text.TrimKeeps("nope");
    ThrowsWhenUnparsable("nope", opts, env);
  }

  lemma NopeScreensClean(opts: Options, env: UrlEnv)
    requires env.decodeComponent("nope") == Some("nope") && opts.maxLength >= 8
    ensures Issues("nope", opts, env) == []
  {
    NopeIsClean();
    assert Text.Utf16Length("nope") <= 8;
    IssuesEmptyIff("nope", opts, env);
  }

  /** A screened string that is its own trim and does not parse escapes as a throw. */
  lemma ThrowsWhenUnparsable(v: string, opts: Options, env: UrlEnv)
    requires Issues(v, opts, env) == [] && Text.Trim(v) == v && env.parse(v) == None
    ensures SafeParseAsWritten(v, opts, env) == Threw(InvalidUrl)
  {
  }

  lemma NopeIsClean()
    ensures !HasControl("nope") && !HasLineTerminator("nope")
    ensures !HasEscapedNewline("nope") && !HasEncodedNewline("nope")
  {
  }

  datatype SchemaError = Invalid(issues: seq<Issue>) | Refused(error: TransformError)

  /** `safeParse` with a transform error reported as a failure, as the callers expect. */
  function SafeParse(v: string, opts: Options, env: UrlEnv): Result<string, SchemaError> {
    match SafeParseAsWritten(v, opts, env)
    case Parsed(out) => Success(out)
    case Rejected(issues) => Failure(Invalid(issues))
    case Threw(e) => Failure(Refused(e))
  }

  /** A string is accepted exactly when the screening raises no issue and the
      transform of its trimmed form succeeds; then it held no control character
      and no dangerous newline, was non-empty and at most maxLength UTF-16 code
      units long, and the result is no longer than maxLength code units. */
  lemma SafeParseMeaning(v: string, opts: Options, env: UrlEnv)
    ensures SafeParse(v, opts, env).Success? <==>
      && !HasControl(v) && !HasDangerousNewlines(env, v) && 1 <= |v| && Text.Utf16Length(v) <= opts.maxLength
      && TransformSpec(Text.Trim(v), opts, env).Success?
    ensures SafeParse(v, opts, env).Success? ==>
      SafeParse(v, opts, env).value == TransformSpec(Text.Trim(v), opts, env).value
      && Text.Utf16Length(SafeParse(v, opts, env).value) <= opts.maxLength
    ensures SafeParseAsWritten(v, opts, env).Threw? ==>
      SafeParse(v, opts, env) == Failure(Refused(SafeParseAsWritten(v, opts, env).error))
  {
    IssuesEmptyIff(v, opts, env);
    TransformAccepts(Text.Trim(v), opts, env);
  }

  /** The screening raises no issue exactly when there is no control character, no
      dangerous newline, and the string is non-empty and at most maxLength UTF-16
      code units long. */
  lemma IssuesEmptyIff(v: string, opts: Options, env: UrlEnv)
    ensures Issues(v, opts, env) == [] <==>
      !HasControl(v) && !HasDangerousNewlines(env, v) && 1 <= |v| && Text.Utf16Length(v) <= opts.maxLength
  {
    var a := if HasControl(v) then [ControlCharacters] else if HasDangerousNewlines(env, v) then [DangerousNewlines] else [];
    var b := if |v| < 1 then [Empty] else [];
    var c := if Text.Utf16Length(v) > opts.maxLength then [TooLongInput] else [];
    assert Issues(v, opts, env) == a + b + c;
    assert |a + b + c| == |a| + |b| + |c|;
  }

  /** `LongUrlSchema.safeParse(v)`, running the imperative transform. */
  method Parse(v: string, opts: Options, env: UrlEnv) returns (r: Result<string, SchemaError>)
    ensures r == SafeParse(v, opts, env)
  {
    var issues := Issues(v, opts, env);
    if issues != [] {
      return Failure(Invalid(issues));
    }
    var t := Transform(Text.Trim(v), opts, env);
    match t
    case Success(out) => return Success(out);
    case Failure(e) => return Failure(Refused(e));
  }
}
