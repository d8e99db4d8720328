/**
 * The `authenticate` pre-handler of the HTTP routes: the bearer token is taken
 * from the Authorization header and verified; its claims become the request's
 * user. Every failure is a 401.
 */
module AuthMiddleware {
  import opened Wrappers
  import opened Text
  import opened Externals

  const BearerPrefix := "Bearer "
  const NoToken := "No token provided"
  const InvalidToken := "Invalid token"

  datatype AuthOutcome = Authenticated(user: Claims) | Unauthorized(error: string)

  /**
   * `request.headers.authorization?.replace('Bearer ', '')`: the header with the
   * first occurrence of "Bearer " removed, wherever it occurs.
   */
  function ExtractToken(header: Option<string>): (r: Option<string>)
    ensures r.None? <==> header.None?
    ensures header.Some? && (forall j: nat :: !OccursAt(header.value, BearerPrefix, j)) ==> r == header
    ensures forall i: nat :: header.Some? && OccursAt(header.value, BearerPrefix, i)
              && (forall j :: 0 <= j < i ==> !OccursAt(header.value, BearerPrefix, j))
              ==> r == Some(header.value[..i] + header.value[i + |BearerPrefix|..])
  {
    match header
    case None => None
    case Some(h) =>
      var t := ReplaceFirst(h, BearerPrefix, "");
      assert forall i: nat :: OccursAt(h, BearerPrefix, i) ==> h[..i] + "" + h[i + |BearerPrefix|..] == h[..i] + h[i + |BearerPrefix|..];
      Some(t)
  }

  /** 401 "No token provided" when there is no header or the token is empty; 401 "Invalid token" when verification fails. */
  function Authenticate(o: Oracles, header: Option<string>): (r: AuthOutcome)
    ensures r == Unauthorized(NoToken) <==> ExtractToken(header) == None || ExtractToken(header) == Some([])
    ensures r == Unauthorized(InvalidToken) <==>
              exists t :: ExtractToken(header) == Some(t) && t != [] && o.verifyToken(t).None?
    ensures r.Authenticated? <==>
              exists t :: ExtractToken(header) == Some(t) && t != [] && o.verifyToken(t).Some?
    ensures r.Authenticated? ==> o.verifyToken(ExtractToken(header).value) == Some(r.user)
  {
    match ExtractToken(header)
    case None => Unauthorized(NoToken)
    case Some(t) =>
      if t == [] then Unauthorized(NoToken)
      else match o.verifyToken(t)
        case None => Unauthorized(InvalidToken)
        case Some(c) => Authenticated(c)
  }

  /** A header of the form "Bearer <t>" yields exactly `t`. */
  lemma PrefixedHeaderYieldsToken(t: string)
    ensures ExtractToken(Some(BearerPrefix + t)) == Some(t)
  {
    var h := BearerPrefix + t;
    assert h[0..|BearerPrefix|] == BearerPrefix;
    assert OccursAt(h, BearerPrefix, 0);
    var k := IndexOf(h, BearerPrefix);
    assert k == Some(0);
    assert h[..0] + "" + h[|BearerPrefix|..] == t;
  }

  /** The removal is not anchored at the start: "xBearer y" yields "xy". */
  lemma ReplaceIsNotPrefixStrip()
    ensures ExtractToken(Some("xBearer y")) == Some("xy")
  {
    var h := "xBearer y";
    assert !OccursAt(h, BearerPrefix, 0) by { assert h[0] != BearerPrefix[0]; }
    assert OccursAt(h, BearerPrefix, 1);
    assert h[..1] + h[1 + |BearerPrefix|..] == "xy";
  }

  /** A header of exactly "Bearer " carries no token. */
  lemma BarePrefixHasNoToken(o: Oracles)
    ensures Authenticate(o, Some(BearerPrefix)) == Unauthorized(NoToken)
  {
    PrefixedHeaderYieldsToken([]);
    assert BearerPrefix + [] == BearerPrefix;
  }
}
