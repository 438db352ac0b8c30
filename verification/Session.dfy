/**
  Signed tokens: sessions, values sealed for a purpose, and secrets derived from the same key.
  Which token means what rests on every signature being over a message of its own shape.
*/
module Session {
  import opened Text
  import opened Wrappers

  type Bytes = seq<bv8>

  const DOT := '.'
  const NUL := '\0'

  /** The foreign parts: base64url without padding, and the message authentication code under the
      one key. */
  datatype Crypto = Crypto(encode: Bytes -> string, decode: string -> Option<Bytes>, mac: string -> Bytes)

  /** The encoding is invertible and its alphabet has neither `.` nor NUL; different messages have
      different codes. */
  ghost predicate Sound(c: Crypto) {
    && (forall b :: c.decode(c.encode(b)) == Some(b))
    && (forall b :: DOT !in c.encode(b) && NUL !in c.encode(b))
    && (forall s :: c.decode(s).Some? ==> DOT !in s && NUL !in s)
    && (forall m, n :: c.mac(m) == c.mac(n) ==> m == n)
  }

  /** How a type is written as JSON and read from it. */
  datatype Format<!T> = Format(write: T -> Bytes, read: Bytes -> Option<T>)

  ghost predicate ReadsBack<T(!new)>(f: Format<T>) {
    forall v :: f.read(f.write(v)) == Some(v)
  }

  datatype Data = Data(subject: string, groups: seq<string>, expiresAt: nat, issuedAt: nat)

  datatype Invalid = Malformed | BadSignature | Expired

  function Sign(c: Crypto, message: string): string {
    c.encode(c.mac(message))
  }

  // Sessions.

  function Encode(c: Crypto, f: Format<Data>, session: Data): string {
    var payload := c.encode(f.write(session));
    payload + "." + Sign(c, payload)
  }

  function OpenSigned<T>(c: Crypto, f: Format<T>, prefix: string, token: string): Result<T, Invalid> {
    match SplitOnce(token, ".")
    case None => Err(Malformed)
    case Some((payload, signature)) =>
      match c.decode(signature)
      case None => Err(Malformed)
      case Some(provided) =>
        if provided != c.mac(prefix + payload) then Err(BadSignature)
        else
          match c.decode(payload)
          case None => Err(Malformed)
          case Some(json) => if f.read(json).Some? then Ok(f.read(json).value) else Err(Malformed)
  }

  function Decode(c: Crypto, f: Format<Data>, token: string, now: nat): Result<Data, Invalid> {
    match OpenSigned(c, f, "", token)
    case Err(e) => Err(e)
    case Ok(session) => if now >= session.expiresAt then Err(Expired) else Ok(session)
  }

  // Sealed values and derived secrets.

  function Seal<T>(c: Crypto, f: Format<T>, purpose: string, value: T): string {
    var payload := c.encode(f.write(value));
    payload + "." + Sign(c, purpose + "." + payload)
  }

  function Open<T>(c: Crypto, f: Format<T>, purpose: string, token: string): Result<T, Invalid> {
    OpenSigned(c, f, purpose + ".", token)
  }

  function Derive(c: Crypto, purpose: string, input: string): string {
    Sign(c, purpose + [NUL] + input)
  }

  // Round trips.

  lemma {:induction false} SignedOpens<T(!new)>(c: Crypto, f: Format<T>, prefix: string, value: T)
    requires Sound(c) && ReadsBack(f)
    ensures
      var payload := c.encode(f.write(value));
      OpenSigned(c, f, prefix, payload + "." + Sign(c, prefix + payload)) == Ok(value)
  {
    var payload := c.encode(f.write(value));
    SplitOnceAt(payload, ".", Sign(c, prefix + payload));
  }

  /** A session is read back until it expires, and not after. */
  lemma {:induction false} SessionReadsBack(c: Crypto, f: Format<Data>, session: Data, now: nat)
    requires Sound(c) && ReadsBack(f)
    ensures Decode(c, f, Encode(c, f, session), now) ==
            if now < session.expiresAt then Ok(session) else Err(Expired)
  {
    SignedOpens(c, f, "", session);
    var payload := c.encode(f.write(session));
    assert "" + payload == payload;
  }

  lemma {:induction false} SealedOpens<T(!new)>(c: Crypto, f: Format<T>, purpose: string, value: T)
    requires Sound(c) && ReadsBack(f)
    ensures Open(c, f, purpose, Seal(c, f, purpose, value)) == Ok(value)
  {
    SignedOpens(c, f, purpose + ".", value);
  }

  // What was signed.

  /** One use of the key. What is sealed is given as its JSON. */
  datatype Call =
    | Encoded(session: Data)
    | Sealed(purpose: string, json: Bytes)
    | Derived(purpose: string, input: string)

  /** The message a call signs. */
  function Message(c: Crypto, f: Format<Data>, call: Call): string {
    match call
    case Encoded(session) => c.encode(f.write(session))
    case Sealed(purpose, json) => purpose + "." + c.encode(json)
    case Derived(purpose, input) => purpose + [NUL] + input
  }

  /** No two kinds of call sign the same message. */
  lemma {:induction false} MessagesHaveShapes(c: Crypto, f: Format<Data>, call: Call)
    requires Sound(c)
    ensures call.Encoded? ==> DOT !in Message(c, f, call) && NUL !in Message(c, f, call)
    ensures call.Sealed? ==> DOT in Message(c, f, call)
    ensures call.Derived? ==> NUL in Message(c, f, call)
  {
    var m := Message(c, f, call);
    match call
    case Encoded(_) =>
    case Sealed(purpose, json) => assert m[|purpose|] == DOT;
    case Derived(purpose, input) => assert m[|purpose|] == NUL;
  }

  /** The token's signature is a code that some call of the run produced: nobody else has the key. */
  ghost predicate Issued(c: Crypto, f: Format<Data>, calls: seq<Call>, token: string) {
    && SplitOnce(token, ".").Some?
    && exists i :: 0 <= i < |calls| && c.decode(SplitOnce(token, ".").value.1) == Some(c.mac(Message(c, f, calls[i])))
  }

  /** An accepted token is signed over its prefix and a payload without `.` or NUL. */
  lemma {:induction false} AcceptedMeans<T>(
    c: Crypto, f: Format<Data>, g: Format<T>, calls: seq<Call>, prefix: string, token: string) returns (i: nat)
    requires Sound(c) && Issued(c, f, calls, token) && OpenSigned(c, g, prefix, token).Ok?
    ensures i < |calls|
    ensures
      var payload := SplitOnce(token, ".").value.0;
      && DOT !in payload && NUL !in payload && c.decode(payload).Some?
      && Message(c, f, calls[i]) == prefix + payload
      && g.read(c.decode(payload).value) == Some(OpenSigned(c, g, prefix, token).value)
  {
    var signature := SplitOnce(token, ".").value.1;
    i :| 0 <= i < |calls| && c.decode(signature) == Some(c.mac(Message(c, f, calls[i])));
    SplitOnceSound(token, ".");
  }

  /** Whatever else the key was used for, a token decodes as a session only if that very session was
      encoded. */
  lemma {:induction false} SessionsWereEncoded(c: Crypto, f: Format<Data>, calls: seq<Call>, token: string, now: nat)
    requires Sound(c) && ReadsBack(f) && Issued(c, f, calls, token) && Decode(c, f, token, now).Ok?
    ensures Encoded(Decode(c, f, token, now).value) in calls
  {
    var i := AcceptedMeans(c, f, f, calls, "", token);
    var payload := SplitOnce(token, ".").value.0;
    assert "" + payload == payload;
    MessagesHaveShapes(c, f, calls[i]);
    assert calls[i].Encoded?;
    assert c.decode(payload) == Some(f.write(calls[i].session));
    assert calls[i] in calls;
  }

  /** The last `.` tells the purpose from the payload. */
  lemma {:induction false} PurposesAreTold(purpose: string, other: string, payload: string, otherPayload: string)
    requires DOT !in payload && DOT !in otherPayload
    requires purpose + "." + payload == other + "." + otherPayload
    ensures purpose == other && payload == otherPayload
  {
    var m := purpose + "." + payload;
    assert m[|purpose|] == DOT && m[|other|] == DOT;
    assert forall k :: |purpose| < k < |m| ==> m[k] == payload[k - |purpose| - 1];
    assert forall k :: |other| < k < |m| ==> m[k] == otherPayload[k - |other| - 1];
    assert |purpose| == |other|;
    assert m[..|purpose|] == purpose && m[..|other|] == other;
    assert m[|purpose| + 1..] == payload && m[|other| + 1..] == otherPayload;
  }

  /** A token opens for a purpose only if a value that reads as the one it opens to was sealed for
      that very purpose. */
  lemma {:induction false} OpenedWereSealed<T>(
    c: Crypto, f: Format<Data>, g: Format<T>, calls: seq<Call>, purpose: string, token: string) returns (json: Bytes)
    requires Sound(c) && Issued(c, f, calls, token) && NUL !in purpose && Open(c, g, purpose, token).Ok?
    ensures Sealed(purpose, json) in calls && g.read(json) == Some(Open(c, g, purpose, token).value)
  {
    var i := AcceptedMeans(c, f, g, calls, purpose + ".", token);
    var payload := SplitOnce(token, ".").value.0;
    var m := purpose + "." + payload;
    MessagesHaveShapes(c, f, calls[i]);
    assert m[|purpose|] == DOT && NUL !in m;
    assert calls[i].Sealed?;
    PurposesAreTold(purpose, calls[i].purpose, payload, c.encode(calls[i].json));
    json := calls[i].json;
    assert calls[i] in calls;
  }

  /** Derived secrets are told apart by both purpose and input. */
  lemma {:induction false} DerivedAreDistinct(
    c: Crypto, purpose: string, other: string, input: string, otherInput: string)
    requires Sound(c) && NUL !in purpose && NUL !in other
    ensures Derive(c, purpose, input) == Derive(c, other, otherInput) <==> purpose == other && input == otherInput
  {
    if Derive(c, purpose, input) == Derive(c, other, otherInput) {
      assert c.decode(Derive(c, purpose, input)) == c.decode(Derive(c, other, otherInput));
      SplitOnceAt(purpose, [NUL], input);
      SplitOnceAt(other, [NUL], otherInput);
    }
  }

  // Sign-ins in flight.

  const STATE_PURPOSE := "gapura login state"
  const PKCE := "pkce verifier"
  const NONCE := "oidc nonce"

  /** What a sign-in's state carries: a random value, when it is abandoned, where to return. */
  datatype Begun = Begun(random: string, expires: nat, returnTo: Option<string>)

  datatype Pending = Pending(state: string, verifier: string, nonce: string, returnTo: Option<string>)

  function FromBegun(c: Crypto, state: string, begun: Begun): Pending {
    Pending(state, Derive(c, PKCE, begun.random), Derive(c, NONCE, begun.random), begun.returnTo)
  }

  function Begin(c: Crypto, g: Format<Begun>, begun: Begun): Pending {
    FromBegun(c, Seal(c, g, STATE_PURPOSE, begun), begun)
  }

  function Resume(c: Crypto, g: Format<Begun>, state: string, now: nat): Option<Pending> {
    match Open(c, g, STATE_PURPOSE, state)
    case Err(_) => None
    case Ok(begun) => if now >= begun.expires then None else Some(FromBegun(c, state, begun))
  }

  /** Any replica with the key resumes a sign-in exactly as it was begun, until it expires, with the
      verifier and the nonce of its own random value. */
  lemma {:induction false} ResumedAsBegun(c: Crypto, g: Format<Begun>, begun: Begun, now: nat)
    requires Sound(c) && ReadsBack(g)
    ensures
      var pending := Begin(c, g, begun);
      && Resume(c, g, pending.state, now) == (if now < begun.expires then Some(pending) else None)
      && pending.verifier == Derive(c, "pkce verifier", begun.random)
      && pending.nonce == Derive(c, "oidc nonce", begun.random) && pending.returnTo == begun.returnTo
  {
    SealedOpens(c, g, STATE_PURPOSE, begun);
  }

  /** Two sign-ins have one verifier, and one nonce, exactly if they have one random value; and no
      verifier is a nonce, of the same sign-in or another. */
  lemma {:induction false} SecretsAreTheirOwn(c: Crypto, g: Format<Begun>, begun: Begun, other: Begun)
    requires Sound(c)
    ensures
      var a, b := Begin(c, g, begun), Begin(c, g, other);
      && (a.verifier == b.verifier <==> begun.random == other.random)
      && (a.nonce == b.nonce <==> begun.random == other.random)
      && a.verifier != b.nonce
  {
    assert PKCE[0] != NONCE[0];
    DerivedAreDistinct(c, PKCE, PKCE, begun.random, other.random);
    DerivedAreDistinct(c, NONCE, NONCE, begun.random, other.random);
    DerivedAreDistinct(c, PKCE, NONCE, begun.random, other.random);
  }

  /** A state is resumed only if a sign-in that reads as this one was begun and has not expired. */
  lemma {:induction false} ResumedWasBegun(
    c: Crypto, f: Format<Data>, g: Format<Begun>, calls: seq<Call>, state: string, now: nat) returns (json: Bytes)
    requires Sound(c) && Issued(c, f, calls, state) && Resume(c, g, state, now).Some?
    ensures Sealed(STATE_PURPOSE, json) in calls && g.read(json).Some? && now < g.read(json).value.expires
    ensures Resume(c, g, state, now) == Some(FromBegun(c, state, g.read(json).value))
  {
    json := OpenedWereSealed(c, f, g, calls, STATE_PURPOSE, state);
  }

  lemma DifferenceIsNothing(difference: bv8, a: bv8, b: bv8)
    ensures difference | (a ^ b) == 0 <==> difference == 0 && a == b
  {
  }

  /** Compares every byte it has, and tells exactly whether the two are equal. */
  method CheckState(expected: Bytes, presented: Bytes) returns (same: bool)
    ensures same <==> expected == presented
  {
    var difference: bv8 := if |expected| != |presented| then 1 else 0;
    var n := if |expected| < |presented| then |expected| else |presented|;
    for i := 0 to n
      invariant difference == 0 <==> |expected| == |presented| && expected[..i] == presented[..i]
    {
      DifferenceIsNothing(difference, expected[i], presented[i]);
      assert expected[..i + 1] == expected[..i] + [expected[i]];
      assert presented[..i + 1] == presented[..i] + [presented[i]];
      difference := difference | (expected[i] ^ presented[i]);
    }
    assert expected[..|expected|] == expected && presented[..|presented|] == presented;
    return difference == 0;
  }
}
