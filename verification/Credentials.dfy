/** Client credentials: options in any order, the environment, and the bounded token file. */
module Credentials {
  import opened Text

  const MAX_TOKEN := 256
  const READ_LIMIT := 258

  datatype CredentialError =
    | PathRequired | NoSuchFile | InsecureFile | InvalidContent | NoHome | InvalidBearer | InvalidBaseURL

  datatype Credential = Token(token: string) | Anonymous | Refused(error: CredentialError)

  /** An HTTP client, by its identity. */
  type Transport = nat

  datatype ClientOption =
    | WithToken(token: string)
    | WithTokenFile(path: string)
    | WithBaseURL(url: string)
    | WithSelfURN(urn: string)
    | WithHTTPClient(client: Option<Transport>)

  datatype File = Missing | Insecure | Content(bytes: string)

  /** The process environment as far as credentials go. */
  datatype Environment = Environment(token: string, proxyToken: string, home: Option<string>, files: map<string, File>)
  {
    function FileAt(path: string): File {
      if path in files then files[path] else Missing
    }
  }

  predicate ValidBearer(token: string) {
    token != "" && |token| <= MAX_TOKEN && forall i :: 0 <= i < |token| ==> 33 <= token[i] as int <= 126
  }

  method ValidBearerToken(token: string) returns (ok: bool)
    ensures ok <==> ValidBearer(token)
    ensures ok <==> 1 <= |token| <= 256 && forall i :: 0 <= i < |token| ==> 33 <= token[i] as int <= 126
  {
    if token == "" || |token| > MAX_TOKEN {
      return false;
    }
    for i := 0 to |token|
      invariant forall j :: 0 <= j < i ==> 33 <= token[j] as int <= 126
    {
      if token[i] as int < 33 || token[i] as int > 126 {
        return false;
      }
    }
    return true;
  }

  /** A token file's content through the bounded read. */
  function ReadContent(content: string): Credential {
    var body := if |content| <= READ_LIMIT then content else content[..READ_LIMIT];
    var token := TrimSpace(body);
    if |body| >= READ_LIMIT || !ValidBearer(token) then Refused(InvalidContent) else Token(token)
  }

  function ReadTokenFile(file: File): Credential {
    match file
    case Missing => Refused(NoSuchFile)
    case Insecure => Refused(InsecureFile)
    case Content(bytes) => ReadContent(bytes)
  }

  /** The bounded read never cuts a token short: what is accepted is the trimmed whole file. */
  lemma {:induction false} BoundedReadIsWhole(content: string, token: string)
    ensures ReadContent(content) == Token(token) <==>
            |content| < READ_LIMIT && token == TrimSpace(content) && ValidBearer(token)
  {
  }

  /** A valid token with white space around it is read back exactly when the file has at most 257 bytes. */
  lemma {:induction false} PaddedTokenIsRead(before: seq<string>, token: string, after: seq<string>)
    requires AllSpaces(before) && AllSpaces(after) && ValidBearer(token)
    ensures ReadContent(Padding(before) + token + Padding(after)) == Token(token) <==>
            |Padding(before)| + |token| + |Padding(after)| <= 257
  {
    hide TrimSpace, Padding;
    assert IsVisible(token[0]) && IsVisible(token[|token| - 1]);
    TrimSpaceAround(before, token, after);
  }

  /** The last value some options give, as the later ones replace the earlier ones. */
  function LastToken(opts: seq<ClientOption>): Option<string> {
    if opts == [] then None
    else
      match opts[|opts| - 1]
      case WithToken(t) => Some(t)
      case _ => LastToken(opts[..|opts| - 1])
  }

  function LastTokenFile(opts: seq<ClientOption>): Option<string> {
    if opts == [] then None
    else
      match opts[|opts| - 1]
      case WithTokenFile(p) => Some(p)
      case _ => LastTokenFile(opts[..|opts| - 1])
  }

  /** The decision chain: explicit file, explicit token, environment, proxy marker, default file. */
  function Resolved(file: Option<string>, token: Option<string>, env: Environment): Credential {
    if file.Some? then
      if file.value == "" then Refused(PathRequired) else ReadTokenFile(env.FileAt(file.value))
    else if token.Some? then Bare(token.value)
    else if env.token != "" then Bare(env.token)
    else if env.proxyToken != "" then Anonymous
    else if env.home.None? then Refused(NoHome)
    else
      var c := ReadTokenFile(env.FileAt(env.home.value + "/.tether/run/operator.token"));
      if c == Refused(NoSuchFile) then Anonymous else c
  }

  function Bare(token: string): Credential {
    if token == "" then Anonymous else Token(token)
  }

  /** A token is used only when it can stand in a header and the base URL names an origin to send it to. */
  function Checked(c: Credential, originKnown: bool): Credential {
    if !c.Token? then c
    else if !ValidBearer(c.token) then Refused(InvalidBearer)
    else if !originKnown then Refused(InvalidBaseURL)
    else c
  }

  /** The base URL after some options: the last one that is not empty, without trailing slashes. */
  function BaseURLOf(opts: seq<ClientOption>, default: string): string {
    if opts == [] then default
    else
      match opts[|opts| - 1]
      case WithBaseURL(u) => if u != "" then TrimSlashes(u) else BaseURLOf(opts[..|opts| - 1], default)
      case _ => BaseURLOf(opts[..|opts| - 1], default)
  }

  function TransportOf(opts: seq<ClientOption>, default: Transport): Transport {
    if opts == [] then default
    else
      match opts[|opts| - 1]
      case WithHTTPClient(Some(h)) => h
      case _ => TransportOf(opts[..|opts| - 1], default)
  }

  /** What construction comes to. `isOrigin`: the URL parses, with a host and scheme http or https. */
  function Configured(opts: seq<ClientOption>, base: string, env: Environment, isOrigin: string -> bool): Credential {
    Checked(Resolved(LastTokenFile(opts), LastToken(opts), env), isOrigin(BaseURLOf(opts, base)))
  }

  class Client {
    var baseURL: string
    var http: Transport
    var selfURN: string
    var token: string
    var tokenFile: string
    var tokenSet: bool
    var tokenFileSet: bool

    ghost function Explicit(): (Option<string>, Option<string>)
      reads this
    {
      (if tokenFileSet then Some(tokenFile) else None, if tokenSet then Some(token) else None)
    }

    constructor (baseURL: string, http: Transport)
      ensures Explicit() == (None, None) && this.baseURL == baseURL && this.http == http
    {
      this.baseURL, this.http := baseURL, http;
      selfURN, token, tokenFile := "", "", "";
      tokenSet, tokenFileSet := false, false;
    }

    method Apply(opt: ClientOption)
      modifies this
      ensures Explicit() == (if opt.WithTokenFile? then Some(opt.path) else old(Explicit().0),
                             if opt.WithToken? then Some(opt.token) else old(Explicit().1))
      ensures baseURL == if opt.WithBaseURL? && opt.url != "" then TrimSlashes(opt.url) else old(baseURL)
      ensures selfURN == if opt.WithSelfURN? then opt.urn else old(selfURN)
      ensures http == if opt.WithHTTPClient? && opt.client.Some? then opt.client.value else old(http)
    {
      match opt {
        case WithToken(t) => token, tokenSet := t, true;
        case WithTokenFile(p) => tokenFile, tokenFileSet := p, true;
        case WithBaseURL(u) =>
          if u != "" {
            baseURL := TrimSlashes(u);
          }
        case WithSelfURN(u) => selfURN := u;
        case WithHTTPClient(h) =>
          if h.Some? {
            http := h.value;
          }
      }
    }

    method ResolveToken(env: Environment) returns (c: Credential)
      ensures c == Resolved(Explicit().0, Explicit().1, env)
    {
      if tokenFileSet {
        if tokenFile == "" {
          return Refused(PathRequired);
        }
        return ReadTokenFile(env.FileAt(tokenFile));
      }
      if tokenSet {
        return Bare(token);
      }
      if env.token != "" {
        return Bare(env.token);
      }
      if env.proxyToken != "" {
        return Anonymous;
      }
      if env.home.None? {
        return Refused(NoHome);
      }
      c := ReadTokenFile(env.FileAt(env.home.value + "/.tether/run/operator.token"));
      if c == Refused(NoSuchFile) {
        c := Anonymous;
      }
    }
  }

  function TrimSlashes(url: string): string {
    if url != "" && url[|url| - 1] == '/' then TrimSlashes(url[..|url| - 1]) else url
  }

  /** Construction: every option in order, then the credential, then the origin it is for. */
  method New(base: string, http: Transport, opts: seq<ClientOption>, env: Environment, isOrigin: string -> bool)
    returns (c: Credential, chosen: Transport)
    ensures c == Configured(opts, base, env, isOrigin)
    ensures chosen == TransportOf(opts, http)
  {
    var client := new Client(base, http);
    for i := 0 to |opts|
      invariant client.Explicit() == (LastTokenFile(opts[..i]), LastToken(opts[..i]))
      invariant client.baseURL == BaseURLOf(opts[..i], base) && client.http == TransportOf(opts[..i], http)
    {
      client.Apply(opts[i]);
      assert opts[..i + 1][..i] == opts[..i];
    }
    assert opts[..|opts|] == opts;
    c := client.ResolveToken(env);
    chosen := client.http;
    if c.Token? {
      var ok := ValidBearerToken(c.token);
      if !ok {
        c := Refused(InvalidBearer);
      } else if !isOrigin(client.baseURL) {
        c := Refused(InvalidBaseURL);
      }
    }
  }

  predicate NoTokenFile(opts: seq<ClientOption>) {
    forall i :: 0 <= i < |opts| ==> !opts[i].WithTokenFile?
  }

  predicate NoToken(opts: seq<ClientOption>) {
    forall i :: 0 <= i < |opts| ==> !opts[i].WithToken?
  }

  predicate NoBaseURL(opts: seq<ClientOption>) {
    forall i :: 0 <= i < |opts| ==> !opts[i].WithBaseURL? || opts[i].url == ""
  }

  predicate NoHTTPClient(opts: seq<ClientOption>) {
    forall i :: 0 <= i < |opts| ==> !opts[i].WithHTTPClient? || opts[i].client == None
  }

  lemma {:induction false} Nothing(opts: seq<ClientOption>, url: string, http: Transport)
    ensures NoTokenFile(opts) ==> LastTokenFile(opts) == None
    ensures NoToken(opts) ==> LastToken(opts) == None
    ensures NoBaseURL(opts) ==> BaseURLOf(opts, url) == url
    ensures NoHTTPClient(opts) ==> TransportOf(opts, http) == http
  {
    if opts != [] {
      Nothing(opts[..|opts| - 1], url, http);
    }
  }

  lemma {:induction false} LaterDefault(a: seq<ClientOption>, b: seq<ClientOption>, url: string, http: Transport)
    ensures BaseURLOf(a + b, url) == BaseURLOf(b, BaseURLOf(a, url))
    ensures TransportOf(a + b, http) == TransportOf(b, TransportOf(a, http))
  {
    if b == [] {
      assert a + b == a;
    } else {
      assert (a + b)[..|a + b| - 1] == a + b[..|b| - 1];
      LaterDefault(a, b[..|b| - 1], url, http);
    }
  }

  /** The last HTTP client given, nil ones apart, is the one used; without any it is the one for the address. */
  lemma {:induction false} LastHTTPClientWins(a: seq<ClientOption>, client: Transport, b: seq<ClientOption>,
                                              http: Transport)
    requires NoHTTPClient(b)
    ensures TransportOf(a + [WithHTTPClient(Some(client))] + b, http) == client
    ensures NoHTTPClient(a) ==> TransportOf(a + b, http) == http
  {
    LaterDefault(a + [WithHTTPClient(Some(client))], b, "", http);
    Nothing(b, "", client);
    LaterDefault(a, b, "", http);
    Nothing(a, "", http);
    Nothing(b, "", http);
  }

  function Slashes(k: nat): string {
    if k == 0 then "" else Slashes(k - 1) + "/"
  }

  lemma {:induction false} TrimmedSlashes(url: string, k: nat)
    requires url != "" ==> url[|url| - 1] != '/'
    ensures TrimSlashes(url + Slashes(k)) == url
  {
    if k == 0 {
      assert url + "" == url;
    } else {
      var s := url + Slashes(k);
      assert s[..|s| - 1] == url + Slashes(k - 1);
      TrimmedSlashes(url, k - 1);
    }
  }

  /** The last base URL that is not empty is the one used, whatever number of slashes it ends in. */
  lemma {:induction false} LastBaseURLWins(a: seq<ClientOption>, url: string, k: nat, b: seq<ClientOption>,
                                           base: string)
    requires NoBaseURL(b) && url != "" && url[|url| - 1] != '/'
    ensures BaseURLOf(a + [WithBaseURL(url + Slashes(k))] + b, base) == url
    ensures NoBaseURL(a) ==> BaseURLOf(a + b, base) == base
  {
    var u := [WithBaseURL(url + Slashes(k))];
    TrimmedSlashes(url, k);
    LaterDefault(a + u, b, base, 0);
    LaterDefault(a, u, base, 0);
    Nothing(b, url, 0);
    LaterDefault(a, b, base, 0);
    Nothing(a, base, 0);
    Nothing(b, base, 0);
  }

  /** What a token file comes to, by what is there. */
  lemma {:induction false} TokenFileCases(file: File)
    ensures match file
            case Missing => ReadTokenFile(file) == Refused(NoSuchFile)
            case Insecure => ReadTokenFile(file) == Refused(InsecureFile)
            case Content(bytes) =>
              var token := TrimSpace(bytes);
              ReadTokenFile(file) ==
              if |bytes| <= 257 && 1 <= |token| <= 256 &&
                 (forall i :: 0 <= i < |token| ==> 33 <= token[i] as int <= 126)
              then Token(token) else Refused(InvalidContent)
  {
    hide TrimSpace;
  }

  /** The refusals that need no file: an explicit empty path, and no home to look for the default file in. */
  lemma {:induction false} RefusedWithoutFile(a: seq<ClientOption>, b: seq<ClientOption>, base: string,
                                              env: Environment, isOrigin: string -> bool)
    requires NoTokenFile(b)
    ensures Configured(a + [WithTokenFile("")] + b, base, env, isOrigin) == Refused(PathRequired)
    ensures NoToken(b) && env.token == "" && env.proxyToken == "" && env.home == None ==>
              Configured(b, base, env, isOrigin) == Refused(NoHome)
  {
    hide BaseURLOf;
    var f := [WithTokenFile("")];
    LastAfter(a, f);
    LastAfter(a + f, b);
    Nothing(b, base, 0);
  }

  lemma {:induction false} LastAfter(a: seq<ClientOption>, b: seq<ClientOption>)
    ensures LastTokenFile(a + b) == if LastTokenFile(b).Some? then LastTokenFile(b) else LastTokenFile(a)
    ensures LastToken(a + b) == if LastToken(b).Some? then LastToken(b) else LastToken(a)
  {
    if b == [] {
      assert a + b == a;
    } else {
      assert (a + b)[..|a + b| - 1] == a + b[..|b| - 1];
      LastAfter(a, b[..|b| - 1]);
    }
  }

  /**
   * A token file option wins wherever it stands: with no later one, the credential is that file's,
   * whatever tokens come before or after, and whatever the environment holds otherwise.
   */
  lemma {:induction false} TokenFileWins(a: seq<ClientOption>, path: string, b: seq<ClientOption>, base: string,
                                         env: Environment, isOrigin: string -> bool)
    requires NoTokenFile(b) && path != ""
    ensures var opts := a + [WithTokenFile(path)] + b;
            var c := ReadTokenFile(if path in env.files then env.files[path] else Missing);
            Configured(opts, base, env, isOrigin) ==
            if c.Token? && !isOrigin(BaseURLOf(opts, base)) then Refused(InvalidBaseURL) else c
  {
    hide ValidBearer, TrimSpace, BaseURLOf;
    var f := [WithTokenFile(path)];
    LastAfter(a, f);
    LastAfter(a + f, b);
    Nothing(b, base, 0);
    FileTokensAreValid(env.FileAt(path));
  }

  lemma {:induction false} FileTokensAreValid(file: File)
    ensures ReadTokenFile(file).Token? ==> ValidBearer(ReadTokenFile(file).token)
  {
  }

  /** Without token files the last token decides, and an empty one makes the client anonymous. */
  lemma {:induction false} LastTokenWins(a: seq<ClientOption>, token: string, b: seq<ClientOption>, base: string,
                                         env: Environment, isOrigin: string -> bool)
    requires NoTokenFile(a) && NoTokenFile(b) && NoToken(b)
    ensures var opts := a + [WithToken(token)] + b;
            Configured(opts, base, env, isOrigin) ==
            if token == "" then Anonymous
            else if !ValidBearer(token) then Refused(InvalidBearer)
            else if !isOrigin(BaseURLOf(opts, base)) then Refused(InvalidBaseURL)
            else Token(token)
  {
    hide ValidBearer, BaseURLOf;
    var t := [WithToken(token)];
    assert t[..0] == [];
    Nothing(a, base, 0);
    Nothing(b, base, 0);
    LastAfter(a, t);
    LastAfter(a + t, b);
  }

  /**
   * Without explicit credentials: a token in the environment decides; failing that a proxied session
   * stays anonymous whatever home and files there are; and only a missing default file is forgiven.
   */
  lemma {:induction false} AmbientCredential(opts: seq<ClientOption>, base: string, env: Environment,
                                             other: Environment, isOrigin: string -> bool)
    requires NoTokenFile(opts) && NoToken(opts)
    requires env.token == other.token && env.proxyToken == other.proxyToken
    ensures var c, d := Configured(opts, base, env, isOrigin), Configured(opts, base, other, isOrigin);
            && (env.token != "" ==> c == d == Checked(Token(env.token), isOrigin(BaseURLOf(opts, base))))
            && (c == Token(env.token) <==>
                  ValidBearer(env.token) && isOrigin(BaseURLOf(opts, base)))
            && (env.token == "" && env.proxyToken != "" ==> c == d == Anonymous)
            && (env.token == "" && env.proxyToken == "" && env.home.Some? ==>
                  var path := env.home.value + "/.tether/run/operator.token";
                  var file := if path in env.files then env.files[path] else Missing;
                  && (c == Anonymous <==> file == Missing)
                  && (c.Token? <==>
                        && file.Content? && |file.bytes| < READ_LIMIT && ValidBearer(TrimSpace(file.bytes))
                        && isOrigin(BaseURLOf(opts, base))))
  {
    hide ValidBearer, TrimSpace, BaseURLOf;
    FileTokensAreValid(env.FileAt(if env.home.Some? then env.home.value + "/.tether/run/operator.token" else ""));
    EmptyIsNoToken();
    Nothing(opts, base, 0);
  }

  lemma {:induction false} EmptyIsNoToken()
    ensures !ValidBearer("")
  {
  }
}
