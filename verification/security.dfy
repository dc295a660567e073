/**
 * The request decoration performed by `applySecurities` in
 * src/core/plugins/download-url.js: a fold, in sequence order, over the
 * authorized security activations, each of which writes at most one entry into
 * the request's `headers` or `query` map.
 *
 * `Step` follows the source's dispatch on the scheme type; `Place`, `Writes`
 * and `Written` describe per activation which entry it writes, and the lemmas
 * below characterise the whole fold by them (last write wins, unwritten keys are
 * kept, unknown scheme types are no-ops).
 */
module Security {
  import opened Wrappers
  import Js
  import Base64

  type Params = map<string, string>

  /** A security scheme as read from the API description: `type`, `in` and `name`. */
  datatype Schema = Schema(kind: string, location: Option<string>, name: string)

  /**
   * The credential `value` of an activation: a plain string (an API key), or an
   * object of which only `header`, `username` and `password` are ever read.
   */
  datatype Credential =
    | Raw(text: string)
    | Fields(header: Option<string>, username: Option<string>, password: Option<string>)

  /** The OAuth2 `token` object: `access_token` and `token_type`. */
  datatype Token = Token(accessToken: Option<string>, tokenType: Option<string>)

  datatype Activation = Activation(schema: Schema, value: Credential, token: Option<Token>)

  /** A request as handed to `applySecurities`: `headers` and `query` may be absent. */
  datatype RequestInit = RequestInit(url: string, loadSpec: bool, credentials: string,
                                     headers: Option<Params>, query: Option<Params>)

  /** A request after decoration: both maps are present. */
  datatype Request = Request(url: string, loadSpec: bool, credentials: string,
                             headers: Params, query: Params)

  /** The two maps of a request an activation can write to. */
  datatype Place = Headers | Query

  function Slot(req: Request, p: Place): Params {
    match p
    case Headers => req.headers
    case Query => req.query
  }

  /** `m` and `m'` agree on `k`: both lack it, or both hold it with the same value. */
  predicate Agree(m: Params, m': Params, k: string) {
    (k in m <==> k in m') && (k in m ==> m[k] == m'[k])
  }

  /** The three scheme types the fold acts on; every other type is ignored. */
  predicate Known(kind: string) {
    kind == "apiKey" || kind == "basic" || kind == "oauth2"
  }

  /** Whether activation `a` writes key `k` of map `p`. */
  predicate Writes(a: Activation, p: Place, k: string) {
    match p
    case Query =>
      a.schema.kind == "apiKey" && a.schema.location == Some("query") && k == a.schema.name
    case Headers =>
      || (a.schema.kind == "apiKey" && a.schema.location != Some("query") && k == a.schema.name)
      || ((a.schema.kind == "basic" || a.schema.kind == "oauth2") && k == "authorization")
  }

  /**
   * The text an apiKey activation stores. The source stores `value` itself; a
   * string is kept as is and an object is represented by its JavaScript string form.
   */
  function KeyText(v: Credential): (t: string)
    ensures v.Raw? ==> t == v.text
  {
    match v
    case Raw(s) => s
    case Fields(_, _, _) => "[object Object]"
  }

  /** `value.header`: absent for a plain string. */
  function PresetHeader(v: Credential): Option<string> {
    match v
    case Raw(_) => None
    case Fields(h, _, _) => h
  }

  /** The text `${value.username}:${value.password}`. */
  function UserPass(v: Credential): string {
    match v
    case Raw(_) => "undefined:undefined"
    case Fields(_, u, p) => Js.Interpolate(u) + ":" + Js.Interpolate(p)
  }

  /**
   * The `authorization` header of a basic activation: a truthy `value.header`
   * verbatim, otherwise `Basic ` followed by the Base64 form of `username:password`
   * (section 2 of RFC 7617).
   */
  function BasicAuthorization(v: Credential): (h: string)
    ensures Js.Truthy(PresetHeader(v)) ==> h == PresetHeader(v).value
    ensures !Js.Truthy(PresetHeader(v)) ==>
              && |h| >= 6 && h[..6] == "Basic "
              && Base64.Decode(h[6..]) == Some(Base64.Latin1(UserPass(v)))
  {
    if Js.Truthy(PresetHeader(v)) then PresetHeader(v).value
    else
      var encoded := Base64.Encode(Base64.Latin1(UserPass(v)));
      Base64.RoundTrip(Base64.Latin1(UserPass(v)));
      assert ("Basic " + encoded)[6..] == encoded;
      "Basic " + encoded
  }

  /**
   * The `authorization` header of an oauth2 activation, `<type> <access token>`
   * (section 2.1 of RFC 6750). Both parts come from `token` only; the type is
   * `Bearer` unless `token.token_type` is truthy, and a missing access token
   * renders as `undefined`.
   */
  function OAuthAuthorization(token: Option<Token>): (h: string)
    ensures token.None? ==> h == "Bearer undefined"
    ensures token.Some? && Js.Truthy(token.value.tokenType) ==>
              h == token.value.tokenType.value + " " + Js.Interpolate(token.value.accessToken)
    ensures token.Some? && !Js.Truthy(token.value.tokenType) ==>
              h == "Bearer " + Js.Interpolate(token.value.accessToken)
  {
    var accessToken := if token.Some? then token.value.accessToken else None;
    var tokenType := if token.Some? then token.value.tokenType else None;
    Js.Or(tokenType, "Bearer") + " " + Js.Interpolate(accessToken)
  }

  /** The value an activation writes, whichever key it writes. */
  function Written(a: Activation): string {
    if a.schema.kind == "apiKey" then KeyText(a.value)
    else if a.schema.kind == "basic" then BasicAuthorization(a.value)
    else OAuthAuthorization(a.token)
  }

  /** One iteration of the `forEach` in `applySecurities`. */
  function Step(req: Request, a: Activation): (r: Request)
    ensures r.url == req.url && r.loadSpec == req.loadSpec && r.credentials == req.credentials
    ensures forall p, k :: Writes(a, p, k) ==> k in Slot(r, p) && Slot(r, p)[k] == Written(a)
    ensures forall p, k :: !Writes(a, p, k) ==> Agree(Slot(req, p), Slot(r, p), k)
    ensures !Known(a.schema.kind) ==> r == req
  {
    var kind := a.schema.kind;
    if kind == "apiKey" then
      if a.schema.location == Some("query") then
        req.(query := req.query[a.schema.name := KeyText(a.value)])
      else
        req.(headers := req.headers[a.schema.name := KeyText(a.value)])
    else if kind == "basic" then
      req.(headers := req.headers["authorization" := BasicAuthorization(a.value)])
    else if kind == "oauth2" then
      req.(headers := req.headers["authorization" := OAuthAuthorization(a.token)])
    else
      req
  }

  /** The activations applied to `req` in sequence order. */
  function Fold(req: Request, acts: seq<Activation>): (r: Request)
    ensures r.url == req.url && r.loadSpec == req.loadSpec && r.credentials == req.credentials
    decreases |acts|
  {
    if |acts| == 0 then req
    else Step(Fold(req, acts[..|acts| - 1]), acts[|acts| - 1])
  }

  /** `assign({}, request)` followed by defaulting `headers` and `query` to empty maps. */
  function Prepare(init: RequestInit): Request {
    Request(init.url, init.loadSpec, init.credentials,
            init.headers.GetOr(map[]), init.query.GetOr(map[]))
  }

  /** `applySecurities(request, securities)`. */
  function ApplySecurities(init: RequestInit, acts: seq<Activation>): (r: Request)
    ensures r.url == init.url && r.loadSpec == init.loadSpec && r.credentials == init.credentials
  {
    Fold(Prepare(init), acts)
  }

  /** Applying `a ++ b` is applying `a`, then `b`. */
  lemma {:induction false} FoldAppend(req: Request, a: seq<Activation>, b: seq<Activation>)
    ensures Fold(req, a + b) == Fold(Fold(req, a), b)
    decreases |b|
  {
    if |b| == 0 {
      assert a + b == a;
    } else {
      var last := b[|b| - 1];
      FoldAppend(req, a, b[..|b| - 1]);
      assert (a + b)[..|a + b| - 1] == a + b[..|b| - 1];
      assert (a + b)[|a + b| - 1] == last;
    }
  }

  /** The first activation is applied first: the `forEach` reading of the fold. */
  lemma FoldFirst(req: Request, a: Activation, rest: seq<Activation>)
    ensures Fold(req, [a] + rest) == Fold(Step(req, a), rest)
  {
    FoldAppend(req, [a], rest);
    assert [a][..0] == [];
  }

  /**
   * Last write wins: when activation `i` writes key `k` of map `p` and no later
   * activation does, the result holds what activation `i` wrote.
   */
  lemma {:induction false} LastWriteWins(req: Request, acts: seq<Activation>, p: Place, k: string, i: nat)
    requires i < |acts| && Writes(acts[i], p, k)
    requires forall j :: i < j < |acts| ==> !Writes(acts[j], p, k)
    ensures k in Slot(Fold(req, acts), p) && Slot(Fold(req, acts), p)[k] == Written(acts[i])
    decreases |acts|
  {
    var front := acts[..|acts| - 1];
    if i < |acts| - 1 {
      LastWriteWins(req, front, p, k, i);
      assert !Writes(acts[|acts| - 1], p, k);
    }
  }

  /** A key no activation writes keeps its presence and value from the input. */
  lemma {:induction false} UnwrittenKept(req: Request, acts: seq<Activation>, p: Place, k: string)
    requires forall i :: 0 <= i < |acts| ==> !Writes(acts[i], p, k)
    ensures Agree(Slot(req, p), Slot(Fold(req, acts), p), k)
    decreases |acts|
  {
    if |acts| > 0 {
      var front := acts[..|acts| - 1];
      UnwrittenKept(req, front, p, k);
      assert !Writes(acts[|acts| - 1], p, k);
    }
  }

  /** The keys of a decorated map are the input's keys plus the keys some activation writes. */
  lemma {:induction false} FoldKeys(req: Request, acts: seq<Activation>, p: Place, k: string)
    ensures k in Slot(Fold(req, acts), p) <==>
            k in Slot(req, p) || exists i :: 0 <= i < |acts| && Writes(acts[i], p, k)
    decreases |acts|
  {
    if |acts| > 0 {
      var front := acts[..|acts| - 1];
      FoldKeys(req, front, p, k);
      if exists i :: 0 <= i < |acts| && Writes(acts[i], p, k) {
        var i :| 0 <= i < |acts| && Writes(acts[i], p, k);
        if i < |acts| - 1 {
          assert front[i] == acts[i];
        }
      }
    }
  }

  /** An activation of an unknown scheme type changes nothing, wherever it stands. */
  lemma UnknownIsNoOp(req: Request, before: seq<Activation>, a: Activation, after: seq<Activation>)
    requires !Known(a.schema.kind)
    ensures Fold(req, before + [a] + after) == Fold(req, before + after)
  {
    FoldAppend(req, before + [a], after);
    FoldAppend(req, before, [a]);
    assert [a][..0] == [];
    FoldAppend(req, before, after);
  }

  /**
   * A basic header computed from Latin-1 `username` and `password` decodes back to
   * exactly `username:password`.
   */
  lemma BasicCredentialRecovered(username: string, password: string, header: Option<string>)
    requires !Js.Truthy(header)
    requires Base64.IsLatin1(username) && Base64.IsLatin1(password)
    ensures var h := BasicAuthorization(Fields(header, Some(username), Some(password)));
            && h[..6] == "Basic "
            && Base64.Decode(h[6..]).Some?
            && Base64.Latin1Text(Base64.Decode(h[6..]).value) == username + ":" + password
  {
  }

  /**
   * The keys of a decorated map: those of the input map (none when it is absent)
   * and those some activation writes. Keys no activation writes keep their values.
   */
  lemma DecoratedKeys(init: RequestInit, acts: seq<Activation>, p: Place, k: string)
    ensures k in Slot(ApplySecurities(init, acts), p) <==>
            k in Slot(Prepare(init), p) || exists i :: 0 <= i < |acts| && Writes(acts[i], p, k)
    ensures (forall i :: 0 <= i < |acts| ==> !Writes(acts[i], p, k)) ==>
            Agree(Slot(Prepare(init), p), Slot(ApplySecurities(init, acts), p), k)
  {
    var req := Prepare(init);
    FoldKeys(req, acts, p, k);
    if forall i :: 0 <= i < |acts| ==> !Writes(acts[i], p, k) {
      UnwrittenKept(req, acts, p, k);
    }
  }
}
