/** Signed capability tokens (cos_lib/cosd_grant.py): `v1:<payload>:<signature>`, both parts in
    base64url. JSON and HMAC (section 2 of RFC 2104) are arbitrary functions. */
module GrantToken {
  import opened Common
  import opened Base64Url
  import opened NonceStore

  const WIRE_VERSION := "v1"

  type Bytes = seq<Byte>

  /** A JSON value in a scope; values that Python calls equal are one value. */
  datatype Field = Null | Text(text: string) | Other(repr: string)

  type Scope = map<string, Field>

  datatype Payload = Payload(scope: Scope, iat: int, exp: int, nonce: string)

  /** What `int(x)` makes of a JSON value: a number, or an exception. */
  datatype Num = Whole(value: int) | Unconvertible

  datatype ScopeField = ScopeObject(scope: Scope) | NotAScope

  /** What the payload bytes decode to; a field may be missing. `Crash` is an exception of the decoder
      that is no decoding error, such as one for too deep a nesting. */
  datatype Json =
    | NotJson
    | Crash
    | NotAnObject
    | Object(scope: Option<ScopeField>, iat: Option<Num>, exp: Option<Num>, nonce: Option<string>)

  datatype Codec = Codec(dumps: Payload -> Bytes, loads: Bytes -> Json, mac: (Bytes, Bytes) -> Bytes)

  ghost predicate Faithful(codec: Codec) {
    forall p: Payload :: codec.loads(codec.dumps(p))
                      == Object(Some(ScopeObject(p.scope)), Some(Whole(p.iat)), Some(Whole(p.exp)), Some(p.nonce))
  }

  datatype Claims = Claims(scope: ScopeField, iat: int, exp: int, nonce: string)

  datatype Verdict =
    | Accepted(claims: Claims)
    | Malformed | Tampered | Expired | ScopeMismatch | Replay
    | Raised

  datatype Issued = Token(token: string) | ValueError

  // ---- Issuing ------------------------------------------------------------------------------

  function Wire(payload: Bytes, sig: Bytes): string {
    WIRE_VERSION + ":" + Encode(payload) + ":" + Encode(sig)
  }

  function IssueToken(scope: Scope, ttl: int, key: Bytes, now: int, nonce: string, codec: Codec): Issued {
    if ttl <= 0 || "op" !in scope || "resource" !in scope then ValueError
    else
      var payload := codec.dumps(Payload(scope, now, now + ttl, nonce));
      Token(Wire(payload, codec.mac(key, payload)))
  }

  // ---- Verifying -----------------------------------------------------------------------------

  datatype Match = Matches | Differs | TypeError

  function Get(scope: Scope, field: string): Field {
    if field in scope then scope[field] else Null
  }

  function Resource(scope: Scope): Field {
    if "resource" in scope then scope["resource"] else Text("")
  }

  /** The prefix test is reached, and fails with an exception, when only the required side is text. */
  function ResourceMatch(token: Field, required: Field): Match {
    if token == Text("*") || token == required then Matches
    else if !required.Text? then Differs
    else if !token.Text? then TypeError
    else if token.text <= required.text then Matches
    else Differs
  }

  predicate Constrains(required: Scope, field: string) {
    field in required && field != "op" && field != "resource"
  }

  function ScopeMatch(token: Scope, required: Scope): Match {
    if Get(required, "op") != Get(token, "op") then Differs
    else
      var m := ResourceMatch(Resource(token), Resource(required));
      if !m.Matches? then m
      else if forall field <- required | Constrains(required, field) :: Get(token, field) == required[field]
      then Matches
      else Differs
  }

  /** Everything but the nonce store. */
  function Check(token: string, required: Option<Scope>, key: Bytes, now: int, codec: Codec): Verdict {
    var parts := Split(token, ':');
    if |parts| != 3 || parts[0] != WIRE_VERSION then Malformed
    else
      var payload, sig := Decode(parts[1]), Decode(parts[2]);
      if payload.None? || sig.None? then Malformed
      else if sig.value != codec.mac(key, payload.value) then Tampered
      else CheckPayload(codec.loads(payload.value), required, now)
  }

  function CheckPayload(json: Json, required: Option<Scope>, now: int): Verdict {
    match json
    case NotJson => Tampered
    case NotAnObject => Tampered
    case Crash => Raised
    case Object(Some(scope), Some(iat), Some(exp), Some(nonce)) =>
      if iat.Unconvertible? || exp.Unconvertible? then Raised
      else if now >= exp.value then Expired
      else
        var m := if required.None? then Matches
                 else if scope.NotAScope? then Differs
                 else ScopeMatch(scope.scope, required.value);
        if m.TypeError? then Raised
        else if m.Differs? then ScopeMismatch
        else Accepted(Claims(scope, iat.value, exp.value, nonce))
    case _ => Malformed
  }

  function Verify(token: string, required: Option<Scope>, key: Bytes, now: int, codec: Codec, rows: Rows): Verdict {
    var v := Check(token, required, key, now, codec);
    if v.Accepted? && !MarkAnswer(rows, v.claims.nonce, v.claims.exp).Recorded? then Replay else v
  }

  function RowsAfter(token: string, required: Option<Scope>, key: Bytes, now: int, codec: Codec,
                     rows: Rows, maxRows: int, clock: int): Rows {
    var v := Check(token, required, key, now, codec);
    if v.Accepted? then Marked(rows, maxRows, v.claims.nonce, v.claims.exp, clock) else rows
  }

  /** `clock` is the store's own reading, taken after `now`. */
  method VerifyToken(token: string, required: Option<Scope>, key: Bytes, now: int, codec: Codec,
                     store: GrantNonceStore?, clock: int)
    returns (v: Verdict)
    modifies if store != null then {store} else {}
    ensures store == null ==> v == Check(token, required, key, now, codec)
    ensures store != null ==> v == Verify(token, required, key, now, codec, old(store.rows))
    ensures store != null ==>
              store.rows == RowsAfter(token, required, key, now, codec, old(store.rows), store.maxRows, clock)
  {
    var parts := Split(token, ':');
    if |parts| != 3 || parts[0] != WIRE_VERSION {
      return Malformed;
    }
    var payload, sig := Decode(parts[1]), Decode(parts[2]);
    if payload.None? || sig.None? {
      return Malformed;
    }
    if sig.value != codec.mac(key, payload.value) {
      return Tampered;
    }
    v := CheckPayload(codec.loads(payload.value), required, now);
    if v.Accepted? && store != null {
      var inserted := store.MarkSeen(v.claims.nonce, v.claims.exp, clock);
      if !inserted.Recorded? {
        v := Replay;
      }
    }
  }

  // ---- Round trip ---------------------------------------------------------------------------------

  /** A token splits into exactly its three parts, and both decode to what went in. */
  lemma WireSplits(payload: Bytes, sig: Bytes)
    ensures Split(Wire(payload, sig), ':') == [WIRE_VERSION, Encode(payload), Encode(sig)]
    ensures Decode(Encode(payload)) == Some(payload) && Decode(Encode(sig)) == Some(sig)
  {
    DecodeUndoesEncode(payload);
    DecodeUndoesEncode(sig);
    SplitThree(WIRE_VERSION, Encode(payload), Encode(sig));
  }

  lemma SplitThree(a: string, b: string, c: string)
    requires Free(a, ':') && Free(b, ':') && Free(c, ':')
    ensures Split(a + ":" + b + ":" + c, ':') == [a, b, c]
  {
    var rest := b + ":" + c;
    assert a + ":" + b + ":" + c == a + ":" + rest;
    SplitAt(a, rest, ':');
    SplitAt(b, c, ':');
    SplitFree(c, ':');
  }

  /** Scope matching is reflexive but not transitive: the two ways in which a token may delegate what
      it may not do itself are a wildcard below the empty prefix and a field required to be null. */
  lemma ScopeMatchingComposesExactly(a: Scope, b: Scope, c: Scope)
    ensures ScopeMatch(a, a).Matches?
    ensures ScopeMatch(a, b).Matches? && ScopeMatch(b, c).Matches? ==>
              (ScopeMatch(a, c).Matches? <==>
               && !(Resource(a) == Text("") && Resource(b) == Text("*") && !Resource(c).Text?)
               && forall field :: Constrains(c, field) && field !in b ==> Get(a, field) == Null)
  {
  }

  lemma ScopeMatchingIsNotTransitive()
    ensures var any := map["op" := Text("read"), "resource" := Text("*")];
            var none := any["resource" := Text("")];
            var five := any["resource" := Other("5")];
            && ScopeMatch(none, any).Matches? && ScopeMatch(any, five).Matches? && ScopeMatch(none, five).Differs?
    ensures var plain := map["op" := Text("read"), "resource" := Text("*")];
            var owned := plain["owner" := Text("x")];
            var free := plain["owner" := Null];
            && ScopeMatch(owned, plain).Matches? && ScopeMatch(plain, free).Matches? && ScopeMatch(owned, free).Differs?
  {
    var plain := map["op" := Text("read"), "resource" := Text("*")];
    var free := plain["owner" := Null];
    var owned := plain["owner" := Text("x")];
    assert Constrains(free, "owner") && Get(owned, "owner") != free["owner"];
  }

  /** A required scope on which the prefix test of the resource raises. */
  predicate Clash(token: Scope, required: Scope) {
    Get(required, "op") == Get(token, "op") && Resource(required).Text? && !Resource(token).Text?
  }

  /** Verifying an issued token with the same key and no nonce store returns its claims exactly when
      the time is before expiry and its scope covers what is required, and raises on a clash. */
  lemma IssuedTokenVerifies(scope: Scope, ttl: int, key: Bytes, iat: int, nonce: string, codec: Codec,
                            required: Option<Scope>, now: int)
    requires Faithful(codec)
    requires IssueToken(scope, ttl, key, iat, nonce, codec).Token?
    ensures var token := IssueToken(scope, ttl, key, iat, nonce, codec).token;
            Check(token, required, key, now, codec) ==
              if now >= iat + ttl then Expired
              else if required.Some? && Clash(scope, required.value) then Raised
              else if required.Some? && !ScopeMatch(scope, required.value).Matches? then ScopeMismatch
              else Accepted(Claims(ScopeObject(scope), iat, iat + ttl, nonce))
    ensures var token := IssueToken(scope, ttl, key, iat, nonce, codec).token;
            required == None || required == Some(scope) ==>
              (Check(token, required, key, now, codec).Accepted? <==> now < iat + ttl)
  {
    var p := Payload(scope, iat, iat + ttl, nonce);
    var payload := codec.dumps(p);
    WireSplits(payload, codec.mac(key, payload));
    assert codec.loads(codec.dumps(p)).Object?;
    ScopeMatchingComposesExactly(scope, scope, scope);
  }

  /** The rule for an issued token whose resource is text, spelled out: before expiry it is accepted
      exactly when the operations are equal, its resource is the wildcard, the required resource or a
      prefix of it, and every other required field has that value in its scope. A field that is
      missing counts as null, a missing required resource as the empty text. */
  lemma IssuedTokenCovers(scope: Scope, ttl: int, key: Bytes, iat: int, nonce: string, codec: Codec,
                          required: Scope, now: int)
    requires Faithful(codec)
    requires IssueToken(scope, ttl, key, iat, nonce, codec).Token? && now < iat + ttl
    requires scope["resource"].Text?
    ensures var token := IssueToken(scope, ttl, key, iat, nonce, codec).token;
            var r := scope["resource"].text;
            var wanted := if "resource" in required then required["resource"] else Text("");
            Check(token, Some(required), key, now, codec).Accepted? <==>
            && "op" in scope && scope["op"] == (if "op" in required then required["op"] else Null)
            && (r == "*" || wanted == Text(r) || exists rest :: wanted == Text(r + rest))
            && forall f :: f in required && f != "op" && f != "resource" ==>
                 if f in scope then scope[f] == required[f] else required[f] == Null
  {
    IssuedTokenVerifies(scope, ttl, key, iat, nonce, codec, Some(required), now);
    var r := scope["resource"].text;
    var wanted := if "resource" in required then required["resource"] else Text("");
    PrefixExtends(r, wanted);
    FieldsAgree(scope, required);
  }

  /** The rule for an issued token whose resource is a number, a list or another value: only an equal
      resource is covered, and a text to compare it with raises. */
  lemma IssuedTokenCoversValue(scope: Scope, ttl: int, key: Bytes, iat: int, nonce: string, codec: Codec,
                               required: Scope, now: int)
    requires Faithful(codec)
    requires IssueToken(scope, ttl, key, iat, nonce, codec).Token? && now < iat + ttl
    requires !scope["resource"].Text?
    ensures var v := Check(IssueToken(scope, ttl, key, iat, nonce, codec).token, Some(required), key, now, codec);
            var wanted := if "resource" in required then required["resource"] else Text("");
            var sameOp := scope["op"] == if "op" in required then required["op"] else Null;
            && (v.Raised? <==> sameOp && wanted.Text?)
            && (v.Accepted? <==>
                  && sameOp && wanted == scope["resource"]
                  && forall f :: f in required && f != "op" && f != "resource" ==>
                       if f in scope then scope[f] == required[f] else required[f] == Null)
  {
    IssuedTokenVerifies(scope, ttl, key, iat, nonce, codec, Some(required), now);
    FieldsAgree(scope, required);
  }

  lemma PrefixExtends(r: string, wanted: Field)
    ensures ResourceMatch(Text(r), wanted).Matches? <==>
            r == "*" || wanted == Text(r) || exists rest :: wanted == Text(r + rest)
  {
    if wanted.Text? && r <= wanted.text {
      assert wanted.text == r + wanted.text[|r|..];
    }
  }

  lemma FieldsAgree(scope: Scope, required: Scope)
    ensures (forall f <- required | Constrains(required, f) :: Get(scope, f) == required[f]) <==>
            forall f :: f in required && f != "op" && f != "resource" ==>
              if f in scope then scope[f] == required[f] else required[f] == Null
  {
    forall f | f in required && f != "op" && f != "resource" ensures Constrains(required, f) {
    }
  }

  /** Issuing is refused exactly for a life of nothing or less and for a scope without one of the two
      fields; the token names its version and carries the payload and its code. */
  lemma IssuedExactly(scope: Scope, ttl: int, key: Bytes, iat: int, nonce: string, codec: Codec)
    ensures var issued := IssueToken(scope, ttl, key, iat, nonce, codec);
            var payload := codec.dumps(Payload(scope, iat, iat + ttl, nonce));
            if ttl > 0 && "op" in scope && "resource" in scope then
              issued.Token? && Split(issued.token, ':') == ["v1", Encode(payload), Encode(codec.mac(key, payload))]
            else issued == ValueError
  {
    var payload := codec.dumps(Payload(scope, iat, iat + ttl, nonce));
    WireSplits(payload, codec.mac(key, payload));
  }

  /** A token that may be issued can make verification raise exactly when its resource is not text. */
  lemma IssuedTokenIsSafeExactly(scope: Scope, ttl: int, key: Bytes, iat: int, nonce: string, codec: Codec)
    requires Faithful(codec)
    requires IssueToken(scope, ttl, key, iat, nonce, codec).Token?
    ensures var token := IssueToken(scope, ttl, key, iat, nonce, codec).token;
            (forall required, now :: !Check(token, required, key, now, codec).Raised?) <==> scope["resource"].Text?
  {
    var token := IssueToken(scope, ttl, key, iat, nonce, codec).token;
    forall required, now ensures scope["resource"].Text? ==> !Check(token, required, key, now, codec).Raised? {
      IssuedTokenVerifies(scope, ttl, key, iat, nonce, codec, required, now);
    }
    var required := Some(scope["resource" := Text("")]);
    IssuedTokenVerifies(scope, ttl, key, iat, nonce, codec, required, iat);
    if !scope["resource"].Text? {
      assert Check(token, required, key, iat, codec).Raised?;
    }
  }

  /** The scope {"op": "read", "resource": 5} is accepted at issue, and verifying its token before
      expiry against {"op": "read", "resource": "a"} raises. */
  lemma NumericResourceRaises(key: Bytes, iat: int, nonce: string, codec: Codec)
    requires Faithful(codec)
    ensures var scope := map["op" := Text("read"), "resource" := Other("5")];
            var issued := IssueToken(scope, 60, key, iat, nonce, codec);
            && issued.Token?
            && Check(issued.token, Some(scope["resource" := Text("a")]), key, iat, codec) == Raised
  {
    var scope := map["op" := Text("read"), "resource" := Other("5")];
    IssuedTokenVerifies(scope, 60, key, iat, nonce, codec, Some(scope["resource" := Text("a")]), iat);
  }

  /** A token under another key fails the signature check unless the codes collide. */
  lemma OtherKeyIsTampering(payload: Bytes, key: Bytes, other: Bytes, required: Option<Scope>, now: int, codec: Codec)
    requires codec.mac(other, payload) != codec.mac(key, payload)
    ensures Check(Wire(payload, codec.mac(key, payload)), required, other, now, codec) == Tampered
  {
    WireSplits(payload, codec.mac(key, payload));
  }

  predicate Complete(json: Json) {
    json.Object? && json.scope.Some? && json.iat.Some? && json.exp.Some? && json.nonce.Some?
  }

  /** The payload crashes the decoder, or is complete with a time that is no integer or, before
      expiry, a clashing scope. */
  predicate PayloadRaises(json: Json, required: Option<Scope>, now: int) {
    && (json.Crash? || Complete(json))
    && (Complete(json) && json.iat.value.Whole? && json.exp.value.Whole? ==>
          && now < json.exp.value.value && required.Some?
          && json.scope.value.ScopeObject? && Clash(json.scope.value.scope, required.value))
  }

  /** `verify_token` says it never raises. For every token it does exactly when the token has three
      parts of the right version that decode, its signature is right, and its payload crashes the
      decoder or is complete with a time that is no integer or, before expiry, a clashing scope. */
  lemma RaisesExactly(token: string, required: Option<Scope>, key: Bytes, now: int, codec: Codec)
    ensures Check(token, required, key, now, codec).Raised? <==>
            exists payload, sig ::
              && IsSigned(token, payload, sig)
              && sig == codec.mac(key, payload)
              && PayloadRaises(codec.loads(payload), required, now)
  {
    var parts := Split(token, ':');
    if |parts| == 3 && Decode(parts[1]).Some? && Decode(parts[2]).Some? && parts[0] == WIRE_VERSION {
      var payload, sig := Decode(parts[1]).value, Decode(parts[2]).value;
      assert IsSigned(token, payload, sig);
      if sig == codec.mac(key, payload) {
        CheckRaisesExactly(codec.loads(payload), required, now);
      }
    }
  }

  lemma CheckRaisesExactly(json: Json, required: Option<Scope>, now: int)
    ensures CheckPayload(json, required, now).Raised? <==> PayloadRaises(json, required, now)
  {
  }

  /** `token` is some spelling of a payload with a signature. */
  ghost predicate IsSigned(token: string, payload: Bytes, sig: Bytes) {
    exists p, g :: Split(token, ':') == [WIRE_VERSION, p, g] && Decode(p) == Some(payload) && Decode(g) == Some(sig)
  }

  /** When a token is malformed and when it counts as tampered with, for every token; without a store
      nothing is a replay. */
  lemma VerdictsExactly(token: string, required: Option<Scope>, key: Bytes, now: int, codec: Codec)
    ensures var v := Check(token, required, key, now, codec);
            && (v.Malformed? <==>
                  forall payload, sig :: IsSigned(token, payload, sig) ==>
                    && sig == codec.mac(key, payload)
                    && codec.loads(payload).Object? && !Complete(codec.loads(payload)))
            && (v.Tampered? <==>
                  exists payload, sig ::
                    && IsSigned(token, payload, sig)
                    && (sig != codec.mac(key, payload) || codec.loads(payload).NotJson?
                        || codec.loads(payload).NotAnObject?))
            && v != Replay
  {
    SignedOnce(token);
  }

  /** A verdict on the payload of a rightly signed token. */
  lemma SignedVerdict(token: string, payload: Bytes, required: Option<Scope>, key: Bytes, now: int, codec: Codec)
    requires IsSigned(token, payload, codec.mac(key, payload)) && Complete(codec.loads(payload))
    requires var json := codec.loads(payload); json.iat.value.Whole? && json.exp.value.Whole?
    ensures var v, json := Check(token, required, key, now, codec), codec.loads(payload);
            && (v.Expired? <==> now >= json.exp.value.value)
            && (v.Accepted? ==> v.claims == Claims(json.scope.value, json.iat.value.value, json.exp.value.value,
                                                  json.nonce.value))
            && (required.None? && now < json.exp.value.value ==> v.Accepted?)
            && (required.Some? && json.scope.value.NotAScope? && now < json.exp.value.value ==> v == ScopeMismatch)
  {
    SignedOnce(token);
  }

  lemma SignedOnce(token: string)
    ensures var parts := Split(token, ':');
            forall payload, sig ::
              IsSigned(token, payload, sig) <==>
              && |parts| == 3 && parts[0] == WIRE_VERSION
              && Decode(parts[1]) == Some(payload) && Decode(parts[2]) == Some(sig)
  {
    var parts := Split(token, ':');
    assert |parts| == 3 ==> parts == [parts[0], parts[1], parts[2]];
  }

  /** With a nonce store an accepted token is a replay exactly when its nonce is in the table or its
      expiry does not fit a row. */
  lemma ReplayExactly(ev: Event, codec: Codec, rows: Rows)
    requires ev.Verification?
    ensures var v := Check(ev.token, ev.required, ev.key, ev.now, codec);
            Outcome(ev, codec, rows) ==
              if v.Accepted? && (v.claims.nonce in rows || v.claims.exp < -0x8000_0000_0000_0000
                                 || v.claims.exp > 0x7fff_ffff_ffff_ffff)
              then Replay else v
  {
  }

  // ---- Runs over a shared nonce store ------------------------------------------------------------

  datatype Event =
    | Verification(token: string, required: Option<Scope>, key: Bytes, now: int, clock: int)
    | Cleanup(clock: int)

  function Outcome(ev: Event, codec: Codec, rows: Rows): Verdict
    requires ev.Verification?
  {
    Verify(ev.token, ev.required, ev.key, ev.now, codec, rows)
  }

  function Next(ev: Event, codec: Codec, maxRows: int, rows: Rows): Rows {
    match ev
    case Verification(token, required, key, now, clock) =>
      RowsAfter(token, required, key, now, codec, rows, maxRows, clock)
    case Cleanup(clock) => Evicted(rows, clock)
  }

  /** `states[i]` is the table before `events[i]`; the clock never goes back. */
  ghost predicate IsRun(states: seq<Rows>, events: seq<Event>, codec: Codec, maxRows: int) {
    && |states| == |events| + 1
    && (forall i :: 0 <= i < |events| ==> states[i + 1] == Next(events[i], codec, maxRows, states[i]))
    && (forall i :: 0 <= i < |events| && events[i].Verification? ==> events[i].now <= events[i].clock)
    && (forall i, j :: 0 <= i < j < |events| ==>
          events[i].clock <= if events[j].Verification? then events[j].now else events[j].clock)
  }

  /** A verification that is not accepted leaves the table as it was. */
  lemma RejectionAddsNothing(ev: Event, codec: Codec, maxRows: int, rows: Rows)
    requires ev.Verification? && !Outcome(ev, codec, rows).Accepted?
    ensures Next(ev, codec, maxRows, rows) == rows
  {
  }

  /** From its acceptance on, a nonce is in the table or its expiry has passed. */
  lemma {:induction false} AcceptedIsRemembered(states: seq<Rows>, events: seq<Event>, codec: Codec, maxRows: int,
                                                i: nat, j: nat)
    requires IsRun(states, events, codec, maxRows)
    requires i < j < |states| && events[i].Verification?
    requires Outcome(events[i], codec, states[i]).Accepted?
    ensures var claims := Outcome(events[i], codec, states[i]).claims;
            (claims.nonce in states[j] && states[j][claims.nonce] == claims.exp) || claims.exp <= events[j - 1].clock
    decreases j
  {
    var claims := Outcome(events[i], codec, states[i]).claims;
    var ev := events[j - 1];
    assert states[j - 1 + 1] == Next(ev, codec, maxRows, states[j - 1]);
    if i + 1 < j {
      AcceptedIsRemembered(states, events, codec, maxRows, i, j - 1);
      assert events[j - 2].clock <= ev.clock;
      StepRemembers(ev, codec, maxRows, states[j - 1], claims.nonce, claims.exp);
    } else {
      AcceptedIsAdded(ev, codec, maxRows, states[i]);
    }
  }

  lemma StepRemembers(ev: Event, codec: Codec, maxRows: int, rows: Rows, nonce: string, exp: int)
    ensures nonce in rows && rows[nonce] == exp && exp > ev.clock ==>
              nonce in Next(ev, codec, maxRows, rows) && Next(ev, codec, maxRows, rows)[nonce] == exp
  {
    if ev.Verification? {
      var v := Check(ev.token, ev.required, ev.key, ev.now, codec);
      if v.Accepted? {
        RowsOnlyExpire(rows, maxRows, v.claims.nonce, v.claims.exp, ev.clock);
      }
    }
  }

  lemma AcceptedIsAdded(ev: Event, codec: Codec, maxRows: int, rows: Rows)
    requires ev.Verification? && Outcome(ev, codec, rows).Accepted?
    ensures var claims, after := Outcome(ev, codec, rows).claims, Next(ev, codec, maxRows, rows);
            claims.exp > ev.clock ==> claims.nonce in after && after[claims.nonce] == claims.exp
  {
    var claims := Outcome(ev, codec, rows).claims;
    RowsOnlyExpire(rows, maxRows, claims.nonce, claims.exp, ev.clock);
  }

  /** If a nonce is accepted twice, the second token expires later than the first. */
  lemma SecondAcceptanceExpiresLater(states: seq<Rows>, events: seq<Event>, codec: Codec, maxRows: int,
                                     i: nat, j: nat)
    requires IsRun(states, events, codec, maxRows)
    requires i < j < |events| && events[i].Verification? && events[j].Verification?
    requires Outcome(events[i], codec, states[i]).Accepted? && Outcome(events[j], codec, states[j]).Accepted?
    requires Outcome(events[i], codec, states[i]).claims.nonce == Outcome(events[j], codec, states[j]).claims.nonce
    ensures Outcome(events[i], codec, states[i]).claims.exp <= events[j].now
          < Outcome(events[j], codec, states[j]).claims.exp
  {
    AcceptedIsRemembered(states, events, codec, maxRows, i, j);
    assert events[j - 1].clock <= events[j].now;
  }

  /** The payload bytes a token carries, however they are spelled. */
  function PayloadOf(token: string): Option<Bytes> {
    var parts := Split(token, ':');
    if |parts| == 3 then Decode(parts[1]) else None
  }

  /** At-most-once acceptance: over any run, whatever is evicted in between and whichever keys and
      scopes the callers pass, a payload is accepted at most once, even if its token is respelled. */
  lemma AcceptedAtMostOnce(states: seq<Rows>, events: seq<Event>, codec: Codec, maxRows: int, i: nat, j: nat)
    requires IsRun(states, events, codec, maxRows)
    requires i < j < |events| && events[i].Verification? && events[j].Verification?
    requires PayloadOf(events[i].token) == PayloadOf(events[j].token)
    requires Outcome(events[i], codec, states[i]).Accepted?
    ensures !Outcome(events[j], codec, states[j]).Accepted?
  {
    if Outcome(events[j], codec, states[j]).Accepted? {
      SecondAcceptanceExpiresLater(states, events, codec, maxRows, i, j);
      assert false;
    }
  }
}
