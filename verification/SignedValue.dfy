/** Signed cookie values, and the pending login that the TOTP challenge cookie carries. */
module SignedValue {
  import opened Common
  import opened Text
  import Base64

  /** HMAC-SHA256 of a key and a payload. */
  type Mac = (seq<byte>, seq<byte>) -> seq<byte>

  function SignValue(mac: Mac, key: seq<byte>, payload: seq<byte>): string {
    Base64.EncodeToString(Base64.Url, payload) + "." + Base64.EncodeToString(Base64.Url, mac(key, payload))
  }

  function VerifyValue(mac: Mac, key: seq<byte>, token: string): Option<seq<byte>> {
    match Cut(token, '.')
    case None => None
    case Some((encodedPayload, encodedSig)) =>
      match (Base64.DecodeString(Base64.Url, encodedPayload), Base64.DecodeString(Base64.Url, encodedSig))
      case (Some(payload), Some(sig)) => if sig == mac(key, payload) then Some(payload) else None
      case _ => None
  }

  /** Verification undoes signing, for every key and payload. */
  lemma SignedVerifies(mac: Mac, key: seq<byte>, payload: seq<byte>)
    ensures VerifyValue(mac, key, SignValue(mac, key, payload)) == Some(payload)
  {
    var p, s := Base64.EncodeToString(Base64.Url, payload), Base64.EncodeToString(Base64.Url, mac(key, payload));
    Base64.RoundTrip(Base64.Url, payload);
    Base64.RoundTrip(Base64.Url, mac(key, payload));
    Base64.PrintedChars(Base64.Url, Base64.EncodeValues(Base64.BITS, payload), '.');
    CutAtFirst(p, s, '.');
    assert SignValue(mac, key, payload) == p + ['.'] + s;
  }

  /**
   A token verifies exactly when it consists of a decodable payload, a dot and a decodable
   signature that is the MAC of that payload.
   */
  lemma VerifiedMeansSigned(mac: Mac, key: seq<byte>, token: string, payload: seq<byte>)
    ensures VerifyValue(mac, key, token) == Some(payload) <==>
            exists p, s :: token == p + "." + s && Base64.DecodeString(Base64.Url, p) == Some(payload)
                           && Base64.DecodeString(Base64.Url, s) == Some(mac(key, payload))
  {
    CutIsInverse(token, '.');
    if VerifyValue(mac, key, token) == Some(payload) {
      var (p, s) := Cut(token, '.').value;
      assert token == p + "." + s;
    }
    if p, s :| token == p + "." + s && Base64.DecodeString(Base64.Url, p) == Some(payload)
               && Base64.DecodeString(Base64.Url, s) == Some(mac(key, payload)) {
      DecodableHasNoDot(p);
      CutAtFirst(p, s, '.');
      assert token == p + ['.'] + s;
    }
  }

  lemma {:induction false} DecodableHasNoDot(s: string)
    requires Base64.Read(Base64.Url, s).Some?
    ensures '.' !in s
  {
    if s != "" {
      DecodableHasNoDot(s[1..]);
    }
  }

  // ----- the pending login

  const SECOND: int := 1_000_000_000
  const PENDING_TTL: int := 300 * SECOND

  datatype PendingLogin = PendingLogin(userID: int, rememberMe: bool)

  /** A Go string seen as its bytes; the payload is ASCII throughout. */
  function BytesOf(s: string): seq<byte>
    requires forall i :: 0 <= i < |s| ==> s[i] as int < 128
  {
    seq(|s|, i requires 0 <= i < |s| => s[i] as int)
  }

  function StringOf(b: seq<byte>): string {
    seq(|b|, i requires 0 <= i < |b| => b[i] as char)
  }

  function PrintBool(b: bool): string {
    if b then "true" else "false"
  }

  /** strconv.ParseBool */
  function ParseBool(s: string): Option<bool> {
    if s in {"1", "t", "T", "TRUE", "true", "True"} then Some(true)
    else if s in {"0", "f", "F", "FALSE", "false", "False"} then Some(false)
    else None
  }

  /** The payload names the user, the choice and the Unix second of issue. */
  function PendingPayload(login: PendingLogin, issuedAt: int): string {
    Join([PrintInt(login.userID), PrintBool(login.rememberMe), PrintInt(issuedAt / SECOND)], ':')
  }

  function ParsePending(payload: string, now: int): Option<PendingLogin> {
    var fields := Split(payload, ':');
    if |fields| != 3 then None
    else
      match (ParseInt(fields[0]), ParseBool(fields[1]), ParseInt(fields[2]))
      case (Some(userID), Some(rememberMe), Some(ts)) =>
        if userID <= 0 || now - ts * SECOND > PENDING_TTL then None else Some(PendingLogin(userID, rememberMe))
      case _ => None
  }

  lemma {:induction false} JoinIsAscii(parts: seq<string>, sep: char)
    requires |parts| >= 1 && sep as int < 128
    requires forall k, i :: 0 <= k < |parts| && 0 <= i < |parts[k]| ==> parts[k][i] as int < 128
    ensures forall i :: 0 <= i < |Join(parts, sep)| ==> Join(parts, sep)[i] as int < 128
  {
    if |parts| > 1 {
      JoinIsAscii(parts[1..], sep);
    }
  }

  lemma PayloadIsAscii(login: PendingLogin, issuedAt: int)
    ensures forall i :: 0 <= i < |PendingPayload(login, issuedAt)| ==> PendingPayload(login, issuedAt)[i] as int < 128
  {
    JoinIsAscii([PrintInt(login.userID), PrintBool(login.rememberMe), PrintInt(issuedAt / SECOND)], ':');
  }

  function IssuePending(mac: Mac, key: seq<byte>, login: PendingLogin, issuedAt: int): string {
    PayloadIsAscii(login, issuedAt);
    SignValue(mac, key, BytesOf(PendingPayload(login, issuedAt)))
  }

  function ReadPending(mac: Mac, key: seq<byte>, cookie: string, now: int): Option<PendingLogin> {
    match VerifyValue(mac, key, cookie)
    case None => None
    case Some(payload) => ParsePending(StringOf(payload), now)
  }

  lemma PayloadFields(login: PendingLogin, issuedAt: int)
    ensures Split(PendingPayload(login, issuedAt), ':')
            == [PrintInt(login.userID), PrintBool(login.rememberMe), PrintInt(issuedAt / SECOND)]
  {
    SplitOfJoin([PrintInt(login.userID), PrintBool(login.rememberMe), PrintInt(issuedAt / SECOND)], ':');
  }

  /**
   A pending login is read back unchanged exactly for real user ids (positive ones) and exactly
   until 300 seconds after the whole second of issue.
   */
  lemma PendingRoundTrip(mac: Mac, key: seq<byte>, login: PendingLogin, issuedAt: int, now: int)
    requires MIN_INT64 <= login.userID <= MAX_INT64 && MIN_INT64 <= issuedAt / SECOND <= MAX_INT64
    ensures ReadPending(mac, key, IssuePending(mac, key, login, issuedAt), now)
            == if login.userID > 0 && now <= issuedAt / SECOND * SECOND + 300 * SECOND then Some(login) else None
  {
    PayloadIsAscii(login, issuedAt);
    var payload := PendingPayload(login, issuedAt);
    SignedVerifies(mac, key, BytesOf(payload));
    assert StringOf(BytesOf(payload)) == payload;
    PayloadFields(login, issuedAt);
    ParseIntPrinted(login.userID);
    ParseIntPrinted(issuedAt / SECOND);
  }

  /** What the cookie says: three fields, the user id, the choice and the Unix second, in this order. */
  lemma PayloadIsPrinted(login: PendingLogin, issuedAt: int)
    ensures Split(PendingPayload(login, issuedAt), ':')
            == [PrintInt(login.userID), if login.rememberMe then "true" else "false", PrintInt(issuedAt / 1_000_000_000)]
  {
    PayloadFields(login, issuedAt);
  }

  /**
   Whatever cookie is presented: a login is read from it exactly if it is a signed value whose
   payload has three fields, a positive user id, a boolean and a second not more than 300 s ago.
   */
  lemma PendingIsRead(mac: Mac, key: seq<byte>, cookie: string, now: int, login: PendingLogin)
    ensures ReadPending(mac, key, cookie, now) == Some(login) <==>
            && VerifyValue(mac, key, cookie).Some?
            && var fields := Split(StringOf(VerifyValue(mac, key, cookie).value), ':');
               && |fields| == 3
               && ParseInt(fields[0]) == Some(login.userID) && login.userID > 0
               && (fields[1] in {"1", "t", "T", "TRUE", "true", "True", "0", "f", "F", "FALSE", "false", "False"})
               && (login.rememberMe <==> fields[1] in {"1", "t", "T", "TRUE", "true", "True"})
               && ParseInt(fields[2]).Some? && now - ParseInt(fields[2]).value * 1_000_000_000 <= 300 * 1_000_000_000
  {
  }
}
