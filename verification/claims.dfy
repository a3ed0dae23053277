/** JWT claim maps as golang-jwt's `MapClaims` hold them after a JSON round
    trip, and the signing and parsing library seen from outside. */
module Claims {
  import opened Wrappers
  import opened Users
  import Clock
  import Strings

  /** A decoded JSON value. Numbers are integers here (Go decodes them as float64). */
  datatype Claim =
    | CStr(s: string)
    | CNum(n: int)
    | CBool(b: bool)
    | CList(items: seq<Claim>)
    | CObject(fields: map<string, Claim>)
    | CNull

  type ClaimSet = map<string, Claim>

  /** `claims[key].(string)` when it succeeds. */
  function Str(claims: ClaimSet, key: string): (r: Option<string>)
    ensures r.Some? <==> key in claims && claims[key].CStr?
  {
    if key in claims && claims[key].CStr? then Some(claims[key].s) else None
  }

  /** `claims[key].(float64)` when it succeeds. */
  function Num(claims: ClaimSet, key: string): (r: Option<int>)
    ensures r.Some? <==> key in claims && claims[key].CNum?
  {
    if key in claims && claims[key].CNum? then Some(claims[key].n) else None
  }

  // ---- links -----------------------------------------------------------------

  /** A `UserLink` as `encoding/json` writes it. */
  function EncodeLink(l: UserLink): Claim {
    CObject(map["id" := CNum(l.id), "url" := CStr(l.url), "name" := CStr(l.name)])
  }

  /** The `links` claim: a nil slice is JSON `null`. */
  function EncodeLinks(links: Option<seq<UserLink>>): Claim {
    match links
    case None => CNull
    case Some(ls) => CList(seq(|ls|, i requires 0 <= i < |ls| => EncodeLink(ls[i])))
  }

  /** One element of `links` read with `link.(map[string]interface{})` and the
      `name`, `url` and `id` assertions; `None` is a failed assertion. */
  function DecodeLink(c: Claim): (r: Option<UserLink>)
    ensures r.Some? <==> (c.CObject? && Str(c.fields, "name").Some?
                          && Str(c.fields, "url").Some? && Num(c.fields, "id").Some?)
  {
    if c.CObject? then
      var name := Str(c.fields, "name");
      var url := Str(c.fields, "url");
      var id := Num(c.fields, "id");
      if name.Some? && url.Some? && id.Some? then Some(UserLink(id.value, url.value, name.value))
      else None
    else None
  }

  /** The loop over the elements of `links`: every element must decode. */
  function DecodeItems(items: seq<Claim>): (r: Option<seq<UserLink>>)
    ensures r.Some? <==> forall i :: 0 <= i < |items| ==> DecodeLink(items[i]).Some?
    ensures r.Some? ==> |r.value| == |items|
                        && forall i :: 0 <= i < |items| ==> DecodeLink(items[i]) == Some(r.value[i])
  {
    if items == [] then Some([])
    else
      var head := DecodeLink(items[0]);
      var tail := DecodeItems(items[1..]);
      if head.Some? && tail.Some? then Some([head.value] + tail.value)
      else
        assert exists i :: 0 <= i < |items| && !DecodeLink(items[i]).Some? by {
          if head.Some? {
            var k :| 0 <= k < |items[1..]| && !DecodeLink(items[1..][k]).Some?;
            assert items[1..][k] == items[k + 1];
          }
        }
        None
  }

  /** The `links` claim as the decoders read it: absent or `null` gives an
      empty list; `None` is a failed assertion. */
  function DecodeLinks(claims: ClaimSet): Option<seq<UserLink>> {
    if "links" !in claims || claims["links"] == CNull then Some([])
    else
      match claims["links"]
      case CList(items) => DecodeItems(items)
      case _ => None
  }

  /** Links written into a token come back, a nil list as an empty one. */
  lemma DecodeEncodeLinks(claims: ClaimSet, links: Option<seq<UserLink>>)
    requires "links" in claims && claims["links"] == EncodeLinks(links)
    ensures DecodeLinks(claims) == Some(links.GetOr([]))
  {
    match links
    case None =>
    case Some(ls) =>
      var items := seq(|ls|, i requires 0 <= i < |ls| => EncodeLink(ls[i]));
      assert claims["links"] == CList(items);
      forall i | 0 <= i < |items| ensures DecodeLink(items[i]) == Some(ls[i]) {
        assert items[i] == EncodeLink(ls[i]);
      }
      var r := DecodeItems(items);
      assert r.Some?;
      assert r.value == ls by {
        forall i | 0 <= i < |ls| ensures r.value[i] == ls[i] {
          assert DecodeLink(items[i]) == Some(r.value[i]);
        }
      }
  }

  // ---- the library -------------------------------------------------------------

  /** What `jwt.Parse` hands back at instant `now`. `Unreadable` is a token it
      cannot even split and decode, so the returned `*jwt.Token` is nil;
      `Rejected` carries the claims of a token that failed verification (a bad
      signature, or golang-jwt's own expiry check); `Verified` is a nil error. */
  datatype Verdict =
    | Unreadable(reason: string)
    | Rejected(reason: string, claims: ClaimSet)
    | Verified(claims: ClaimSet)

  /** HS256 signing with the server key (`SignedString`) and `jwt.Parse` with
      the same key. */
  datatype Codec = Codec(sign: ClaimSet -> Result<string, string>, parse: (string, int) -> Verdict)

  /** golang-jwt's own `exp` rule: a token is valid while `now` is strictly
      before its expiry. */
  predicate LibraryExpired(claims: ClaimSet, now: int) {
    Num(claims, "exp").Some? && !(now < Num(claims, "exp").value * Clock.Second)
  }

  /** What parsing a token signed over `claims` gives at `now`. */
  predicate ReadsBack(v: Verdict, claims: ClaimSet, now: int) {
    if LibraryExpired(claims, now) then v.Rejected? && v.claims == claims
    else v == Verified(claims)
  }

  /** The library behaves as a signature scheme: a signed token has three
      `.`-separated segments and parses back to the claims it was signed over. */
  ghost predicate Sound(codec: Codec) {
    (forall c :: codec.sign(c).Ok? ==> Strings.Count(codec.sign(c).value, '.') == 2)
    && (forall c, now :: codec.sign(c).Ok? ==> ReadsBack(codec.parse(codec.sign(c).value, now), c, now))
  }
}
