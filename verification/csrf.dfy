/** The session and CSRF handling of `src/utils/api.js`: reading the
    `csrftoken` cookie, the request interceptor that copies it into the
    `X-CSRFToken` header of unsafe requests, and the response interceptor
    that sends the user to `/login` when the session is refused. */
module Csrf {
  import opened Wrappers
  import opened JsText
  import opened UriComponent
  import opened Json
  import opened Api

  const CookiePrefix: string := "csrftoken="
  const CsrfHeader: string := "X-CSRFToken"

  /** What the cookie lookup can end in: `null`, a decoded value, or the
      `URIError` thrown by `decodeURIComponent`. */
  datatype CookieLookup = NoToken | Token(value: string) | DecodeFailure

  predicate Matches(piece: string) {
    StartsWith(Trim(piece), CookiePrefix)
  }

  /** The loop over the `;`-separated pieces: the first piece that starts
      with `csrftoken=` once trimmed decides the result. */
  function FindCsrf(pieces: seq<string>): (r: CookieLookup)
    ensures r == NoToken <==> forall i :: 0 <= i < |pieces| ==> !Matches(pieces[i])
  {
    if |pieces| == 0 then NoToken
    else
      var piece := Trim(pieces[0]);
      if StartsWith(piece, CookiePrefix) then
        match Decode(piece[|CookiePrefix|..])
        case None => DecodeFailure
        case Some(v) => Token(v)
      else
        var r := FindCsrf(pieces[1..]);
        assert forall i :: 1 <= i < |pieces| ==> pieces[i] == pieces[1..][i - 1];
        r
  }

  /** `getCSRFTokenFromCookie` over the value of `document.cookie`. */
  function CsrfTokenFromCookie(cookie: string): (r: CookieLookup)
    ensures cookie == "" ==> r == NoToken
  {
    if cookie == "" then NoToken else FindCsrf(Split(cookie, ';'))
  }

  /** Pieces before the first match do not matter. */
  lemma {:induction false} FirstMatchWins(before: seq<string>, piece: string, after: seq<string>)
    requires forall i :: 0 <= i < |before| ==> !Matches(before[i])
    requires Matches(piece)
    ensures FindCsrf(before + [piece] + after) == FindCsrf([piece])
  {
    if |before| > 0 {
      assert (before + [piece] + after)[1..] == before[1..] + [piece] + after;
      FirstMatchWins(before[1..], piece, after);
    } else {
      assert before + [piece] + after == [piece] + after;
    }
  }

  /** The characters `encodeURIComponent` writes are neither white space
      nor `;`. */
  lemma EncodedIsPlain(v: string)
    ensures forall i :: 0 <= i < |Encode(v)| ==> !IsWhite(Encode(v)[i]) && Encode(v)[i] != ';'
  {
  }

  /** The piece `csrftoken=` followed by the encoded form of `v` is a
      `csrftoken` piece that reads back as `v`. */
  lemma EncodedPiece(v: string)
    ensures ';' !in CookiePrefix + Encode(v)
    ensures Matches(CookiePrefix + Encode(v))
    ensures FindCsrf([CookiePrefix + Encode(v)]) == Token(v)
  {
    EncodedPieceIsPlain(v);
    EncodedPieceReads(v);
  }

  lemma EncodedPieceIsPlain(v: string)
    ensures ';' !in CookiePrefix + Encode(v)
    ensures Trim(CookiePrefix + Encode(v)) == CookiePrefix + Encode(v)
  {
    EncodedIsPlain(v);
    PlainPiece(Encode(v));
  }

  /** `csrftoken=` followed by text without white space or `;` is one
      piece that trimming leaves alone. */
  lemma PlainPiece(e: string)
    requires forall i :: 0 <= i < |e| ==> !IsWhite(e[i]) && e[i] != ';'
    ensures ';' !in CookiePrefix + e
    ensures Trim(CookiePrefix + e) == CookiePrefix + e
  {
    var piece := CookiePrefix + e;
    forall i | 0 <= i < |piece| ensures piece[i] != ';' {
      if i >= |CookiePrefix| { assert piece[i] == e[i - |CookiePrefix|]; }
    }
    assert !IsWhite(piece[|piece| - 1]) by {
      if |e| > 0 { assert piece[|piece| - 1] == e[|e| - 1]; }
    }
    assert !IsWhite(piece[0]);
    TrimClean(piece);
  }

  lemma EncodedPieceReads(v: string)
    requires Trim(CookiePrefix + Encode(v)) == CookiePrefix + Encode(v)
    ensures Matches(CookiePrefix + Encode(v))
    ensures FindCsrf([CookiePrefix + Encode(v)]) == Token(v)
  {
    var piece := CookiePrefix + Encode(v);
    assert piece[..|CookiePrefix|] == CookiePrefix;
    assert piece[|CookiePrefix|..] == Encode(v);
    DecodeEncode(v);
  }

  /** A cookie written as pieces joined with `;`, where the token is the
      encoded form of `v` and no earlier piece is a `csrftoken` piece, reads
      back as exactly `v`, whatever follows it. */
  lemma CookieRoundTrip(before: seq<string>, v: string, after: seq<string>)
    requires forall i :: 0 <= i < |before| ==> !Matches(before[i]) && ';' !in before[i]
    requires forall i :: 0 <= i < |after| ==> ';' !in after[i]
    ensures CsrfTokenFromCookie(Join(before + [CookiePrefix + Encode(v)] + after, ';')) == Token(v)
  {
    var piece := CookiePrefix + Encode(v);
    var pieces := before + [piece] + after;
    EncodedPiece(v);
    forall i | 0 <= i < |pieces| ensures ';' !in pieces[i] {
      if i < |before| { assert pieces[i] == before[i]; }
      else if i > |before| { assert pieces[i] == after[i - |before| - 1]; }
    }
    SplitJoin(pieces, ';');
    JoinContains(pieces, |before|, ';');
    FirstMatchWins(before, piece, after);
  }

  /** A joined string is empty only if every piece is. */
  lemma {:induction false} JoinContains(pieces: seq<string>, k: nat, sep: char)
    requires k < |pieces|
    ensures |Join(pieces, sep)| >= |pieces[k]|
  {
    if |pieces| > 1 && k > 0 {
      JoinContains(pieces[1..], k - 1, sep);
    }
  }

  /** A cookie of one piece with no `;`. */
  lemma SinglePiece(cookie: string)
    requires cookie != "" && ';' !in cookie
    requires |cookie| > 0 ==> !IsWhite(cookie[0]) && !IsWhite(cookie[|cookie| - 1])
    ensures CsrfTokenFromCookie(cookie) == FindCsrf([cookie])
    ensures Trim(cookie) == cookie
  {
    SplitFree(cookie, ';');
    TrimClean(cookie);
  }

  /** A one-piece cookie that does not start with `csrftoken=` holds no
      token. */
  lemma NoTokenPiece(cookie: string)
    requires cookie != "" && ';' !in cookie
    requires !IsWhite(cookie[0]) && !IsWhite(cookie[|cookie| - 1])
    requires !StartsWith(cookie, CookiePrefix)
    ensures CsrfTokenFromCookie(cookie) == NoToken
  {
    SinglePiece(cookie);
  }

  /** A bare prefix is not enough: `csrftokenX=1` is not the token. */
  lemma PrefixNeedsEquals()
    ensures CsrfTokenFromCookie("csrftokenX=1") == NoToken
  {
    var c := "csrftokenX=1";
    assert c[9] != CookiePrefix[9];
    NoTokenPiece(c);
  }

  /** Nothing may come before the name: `xcsrftoken=1` is not the token. */
  lemma PrefixAtStart()
    ensures CsrfTokenFromCookie("xcsrftoken=1") == NoToken
  {
    var c := "xcsrftoken=1";
    assert c[0] != CookiePrefix[0];
    NoTokenPiece(c);
  }

  /** A cookie of two pieces. */
  lemma TwoPieces(first: string, second: string)
    requires ';' !in first && ';' !in second
    ensures CsrfTokenFromCookie(first + ";" + second) == FindCsrf([first, second])
  {
    var c := first + ";" + second;
    assert c == first + [';'] + second;
    SplitPrefix(first, ';', second);
    SplitFree(second, ';');
    assert |c| > 0;
  }

  /** A piece that does not match is skipped. */
  lemma SkipPiece(first: string, rest: seq<string>)
    requires !Matches(first)
    ensures FindCsrf([first] + rest) == FindCsrf(rest)
  {
    assert ([first] + rest)[1..] == rest;
  }

  /** A `csrftoken` piece whose value holds no `%` reads as that value. */
  lemma PlainTokenPiece(v: string)
    requires '%' !in v
    requires Trim(CookiePrefix + v) == CookiePrefix + v
    ensures FindCsrf([CookiePrefix + v]) == Token(v)
  {
    var piece := CookiePrefix + v;
    assert piece[..|CookiePrefix|] == CookiePrefix;
    assert piece[|CookiePrefix|..] == v;
    assert forall i :: 0 <= i < |v| ==> v[i] != '%';
  }

  /** A `csrftoken` piece after a space, as browsers write every piece
      but the first, reads as its value. */
  lemma SpacedTokenPiece(v: string)
    requires '%' !in v && |v| > 0 && !IsWhite(v[|v| - 1])
    ensures Matches([' '] + (CookiePrefix + v))
    ensures FindCsrf([[' '] + (CookiePrefix + v)]) == Token(v)
  {
    var piece := CookiePrefix + v;
    TrimLeadingWhite(' ', piece);
    assert piece[|piece| - 1] == v[|v| - 1];
    TrimClean(piece);
    PlainTokenPiece(v);
  }

  /** In `first; csrftoken=v`, a first piece that is not a `csrftoken`
      piece is passed over and the value after the space is found. */
  lemma SecondPieceToken(first: string, v: string)
    requires ';' !in first && !Matches(first)
    requires '%' !in v && ';' !in v && |v| > 0 && !IsWhite(v[|v| - 1])
    ensures CsrfTokenFromCookie(first + ";" + ([' '] + (CookiePrefix + v))) == Token(v)
  {
    var second := [' '] + (CookiePrefix + v);
    assert ';' !in second by {
      forall i | 0 <= i < |second| ensures second[i] != ';' {
        if i > |CookiePrefix| { assert second[i] == v[i - |CookiePrefix| - 1]; }
      }
    }
    TwoPieces(first, second);
    SkipPiece(first, [second]);
    SpacedTokenPiece(v);
  }

  /** The pieces are trimmed, so `a=1; csrftoken=x` finds `x`. */
  lemma PiecesAreTrimmed(cookie: string)
    requires cookie == "a=1; csrftoken=x"
    ensures CsrfTokenFromCookie(cookie) == Token("x")
  {
    TrimmedSpelling(cookie);
    TrimmedValue();
  }

  lemma TrimmedSpelling(cookie: string)
    requires cookie == "a=1; csrftoken=x"
    ensures cookie == "a=1" + ";" + ([' '] + (CookiePrefix + "x"))
  {
  }

  lemma TrimmedValue()
    ensures CsrfTokenFromCookie("a=1" + ";" + ([' '] + (CookiePrefix + "x"))) == Token("x")
  {
    OtherPiece("a=1");
    SecondPieceToken("a=1", "x");
  }

  lemma OtherPiece(first: string)
    requires first == "a=1"
    ensures !Matches(first)
  {
    TrimClean(first);
    assert first[0] != CookiePrefix[0];
  }

  /** The first `csrftoken` piece decides even when it cannot be decoded:
      a later, well-formed duplicate is not consulted. */
  lemma BadFirstTokenFails(cookie: string)
    requires cookie == "csrftoken=%zz; csrftoken=x"
    ensures CsrfTokenFromCookie(cookie) == DecodeFailure
  {
    BadSpelling(cookie);
    BadValue();
  }

  lemma BadSpelling(cookie: string)
    requires cookie == "csrftoken=%zz; csrftoken=x"
    ensures cookie == (CookiePrefix + "%zz") + ";" + " csrftoken=x"
  {
  }

  lemma BadValue()
    ensures CsrfTokenFromCookie((CookiePrefix + "%zz") + ";" + " csrftoken=x") == DecodeFailure
  {
    var first := CookiePrefix + "%zz";
    BadPiece(first);
    SemicolonFree(" csrftoken=x");
    TwoPieces(first, " csrftoken=x");
  }

  lemma SemicolonFree(s: string)
    requires s == " csrftoken=x"
    ensures ';' !in s
  {
  }

  lemma BadPiece(first: string)
    requires first == CookiePrefix + "%zz"
    ensures ';' !in first
    ensures forall second :: FindCsrf([first, second]) == DecodeFailure
  {
    TrimClean(first);
    assert first[..|CookiePrefix|] == CookiePrefix;
    assert first[|CookiePrefix|..] == "%zz";
    assert Decode("%zz") == None;
  }

  /** The methods the request interceptor leaves alone, compared after
      upper-casing. */
  predicate SafeMethod(name: string) {
    Upper(name) in {"GET", "HEAD", "OPTIONS"}
  }

  /** The request configuration the interceptors see: the method as axios
      spells it, the request itself, and the headers. */
  datatype Config = Config(verbName: string, request: Request, headers: map<string, string>)

  /** The interceptor either passes a (possibly extended) configuration on,
      or throws because the cookie could not be decoded. */
  datatype Intercepted = Proceed(config: Config) | Rejected

  /** The request interceptor. An unsafe request whose cookie holds a
      non-empty token gets it as `X-CSRFToken`; everything else is passed on
      unchanged, except that a cookie `decodeURIComponent` cannot read
      makes the interceptor throw. */
  function AttachCsrf(config: Config, cookie: string): (r: Intercepted)
    ensures r.Rejected? <==> !SafeMethod(config.verbName) && CsrfTokenFromCookie(cookie) == DecodeFailure
    ensures SafeMethod(config.verbName) ==> r == Proceed(config)
    ensures r.Proceed? ==> r.config.verbName == config.verbName && r.config.request == config.request
    ensures r.Proceed? ==> forall h :: h != CsrfHeader ==>
              (h in r.config.headers <==> h in config.headers)
              && (h in config.headers ==> r.config.headers[h] == config.headers[h])
    ensures r.Proceed? ==>
              (CsrfHeader in r.config.headers && (CsrfHeader !in config.headers || r.config.headers[CsrfHeader] != config.headers[CsrfHeader])
               ==> !SafeMethod(config.verbName) && CsrfTokenFromCookie(cookie) == Token(r.config.headers[CsrfHeader]))
    ensures !SafeMethod(config.verbName) && CsrfTokenFromCookie(cookie).Token? && CsrfTokenFromCookie(cookie).value != "" ==>
              r.Proceed? && CsrfHeader in r.config.headers && r.config.headers[CsrfHeader] == CsrfTokenFromCookie(cookie).value
    ensures !SafeMethod(config.verbName) && (CsrfTokenFromCookie(cookie) == NoToken || CsrfTokenFromCookie(cookie) == Token("")) ==>
              r == Proceed(config)
  {
    if SafeMethod(config.verbName) then Proceed(config)
    else
      match CsrfTokenFromCookie(cookie)
      case DecodeFailure => Rejected
      case NoToken => Proceed(config)
      case Token(t) =>
        if t == "" then Proceed(config)
        else Proceed(config.(headers := config.headers[CsrfHeader := t]))
  }

  /** The method string axios puts in the configuration. */
  function MethodName(v: Verb): string {
    match v
    case GET => "get"
    case POST => "post"
    case PUT => "put"
    case PATCH => "patch"
    case DELETE => "delete"
  }

  /** The configuration of a request as the axios instance builds it, with
      its default JSON content type. */
  function ConfigOf(q: Request): Config {
    Config(MethodName(q.verb), q, map["Content-Type" := "application/json"])
  }

  /** Over the whole endpoint table: exactly the non-GET calls carry the
      token, given a cookie holding a non-empty one. */
  lemma CsrfOnUnsafeCalls(r: Resource, a: Action, id: string, arg: Option<Json>, cookie: string)
    requires Defined(r, a)
    requires CsrfTokenFromCookie(cookie).Token? && CsrfTokenFromCookie(cookie).value != ""
    ensures var q := ToRequest(r, a, id, arg);
            var out := AttachCsrf(ConfigOf(q), cookie);
            out.Proceed?
            && (CsrfHeader in out.config.headers <==> q.verb != GET)
  {
    SafeVerb(ToRequest(r, a, id, arg).verb);
  }

  /** Of the verbs the endpoint table uses, only GET is safe. */
  lemma SafeVerb(v: Verb)
    ensures SafeMethod(MethodName(v)) <==> v == GET
  {
    match v
    case GET => assert Upper("get") == "GET";
    case POST => assert Upper("post") == "POST";
    case PUT => assert Upper("put") == "PUT";
    case PATCH => assert Upper("patch") == "PATCH";
    case DELETE => assert Upper("delete") == "DELETE";
  }

  /** Safety does not depend on how the method is capitalised. */
  lemma SafeMethodIgnoresCase(name: string)
    ensures SafeMethod(name) == SafeMethod(Lower(name))
  {
    UpperOfLower(name);
  }

  /** How a request settled before the response interceptor: a response, or
      an error that may carry a response status. */
  datatype Settled<T> = Success(response: T) | Failure(status: Option<int>)

  /** The response interceptor: the settlement is passed on as it is (a
      success resolves, every error rejects with the same error), together
      with whether the page was sent to `/login`. */
  function OnResponse<T>(s: Settled<T>): (r: (Settled<T>, bool))
    ensures r.0 == s
    ensures r.1 <==> s.Failure? && (s.status == Some(401) || s.status == Some(403))
  {
    match s
    case Success(_) => (s, false)
    case Failure(status) =>
      if status == Some(403) then (s, true)
      else if status == Some(401) then (s, true)
      else (s, false)
  }
}
