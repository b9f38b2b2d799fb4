/**
 Device tokens and elevation markers (`web_auth`), and the dashboard's epoch cache.

 A signature is modelled as: only minted payloads verify, so a token or marker is its payload. A
 fingerprint is modelled as the thing it is taken of.
 */
module WebAuth {
  import opened Wrappers

  const ELEVATION_SECONDS := 600
  const ELEVATION_CAP_SECONDS := 3600
  const SKEW_SECONDS := 60
  const EPOCH_CACHE_SECONDS: real := 60.0
  const TRUSTED_MAX_AGE := 30 * 86400

  datatype Token = Token(operator: string, epoch: int, issued: int)

  datatype Marker = Marker(operator: string, epoch: int, token: Token, credential: string, first: int, expires: int)

  predicate IsOperatorChar(c: char) {
    'a' <= c <= 'z' || '0' <= c <= '9' || c == '_' || c == '.' || c == '-'
  }

  /** `OPERATOR_PATTERN` */
  predicate IsOperator(name: string) {
    1 <= |name| <= 32 && forall i | 0 <= i < |name| :: IsOperatorChar(name[i])
  }

  /** `int(x)`: towards zero. */
  function Int(x: real): (n: int)
    ensures x >= 0.0 ==> n as real <= x < n as real + 1.0
  {
    if x >= 0.0 then x.Floor else -((-x).Floor)
  }

  lemma IntIsTowardsZero(x: real)
    ensures x < 0.0 ==> Int(x) as real - 1.0 < x <= Int(x) as real
  {
  }

  function MakeDeviceToken(operator: string, epoch: int, now: real): Token {
    Token(operator, epoch, Int(now))
  }

  function ReadDeviceToken(token: Token, now: real, maxAge: int): Option<(string, int)> {
    if !IsOperator(token.operator) || token.epoch < 0
       || token.issued as real > now + SKEW_SECONDS as real || now - token.issued as real > maxAge as real
    then None
    else Some((token.operator, token.epoch))
  }

  /** A new marker; `first` carries the passphrase entry through a refresh. */
  function MakeElevation(operator: string, epoch: int, token: Token, now: real, credential: string,
                         first: Option<int>): Marker {
    var entered := if first.Some? then first.value else Int(now);
    Marker(operator, epoch, token, credential, entered, Int(now) + ELEVATION_SECONDS)
  }

  function ReadElevation(marker: Marker, token: Token, now: real, credential: string): Option<(string, int, int)> {
    if !IsOperator(marker.operator) || marker.epoch < 0 then None
    else if marker.token != token || marker.credential != credential then None
    else if marker.first as real > now + SKEW_SECONDS as real
            || now > marker.expires as real
            || now > (marker.first + ELEVATION_CAP_SECONDS) as real
            || marker.expires as real > now + ELEVATION_SECONDS as real
    then None
    else Some((marker.operator, marker.epoch, marker.first))
  }

  /** A device token reads back for as long as its age allows, counted from the second it was minted in. */
  lemma FreshTokenReads(operator: string, epoch: int, minted: real, now: real, maxAge: int)
    requires IsOperator(operator) && epoch >= 0 && 0.0 <= minted <= now
    ensures ReadDeviceToken(MakeDeviceToken(operator, epoch, minted), now, maxAge) == Some((operator, epoch))
            <==> now - Int(minted) as real <= maxAge as real
  {
  }

  /** A marker reads back, in its own session and under its own passphrase, until its window or its cap
      runs out. */
  lemma FreshMarkerReads(operator: string, epoch: int, token: Token, minted: real, now: real, credential: string,
                         first: Option<int>)
    requires IsOperator(operator) && epoch >= 0 && 0.0 <= minted <= now
    requires first.Some? ==> first.value as real <= minted
    ensures var marker := MakeElevation(operator, epoch, token, minted, credential, first);
            ReadElevation(marker, token, now, credential) == Some((operator, epoch, marker.first))
            <==> && now <= (Int(minted) + 600) as real
                 && now <= ((if first.Some? then first.value else Int(minted)) + 3600) as real
  {
  }

  /** Which payloads read, and as what: the operator's name has 1 to 32 characters of its set, the epoch is no
      less than 0, and the token is from no more than a minute ahead and no older than its age allows. */
  lemma TokenReadsExactly(token: Token, now: real, maxAge: int, read: (string, int))
    ensures ReadDeviceToken(token, now, maxAge) == Some(read)
            <==> && read == (token.operator, token.epoch) && IsOperator(token.operator) && token.epoch >= 0
                 && token.issued as real <= now + 60.0 && now <= token.issued as real + maxAge as real
  {
  }

  /** A marker reads only in the session and under the credential it was made for, within its hour and its ten
      minutes, and not from the future. */
  lemma MarkerReadsExactly(marker: Marker, token: Token, now: real, credential: string, read: (string, int, int))
    ensures ReadElevation(marker, token, now, credential) == Some(read)
            <==> && read == (marker.operator, marker.epoch, marker.first)
                 && IsOperator(marker.operator) && marker.epoch >= 0
                 && marker.token == token && marker.credential == credential
                 && marker.first as real - 60.0 <= now <= marker.first as real + 3600.0
                 && marker.expires as real - 600.0 <= now <= marker.expires as real
  {
  }

  /** An operator's name, its characters by number. */
  lemma OperatorExactly(name: string)
    ensures IsOperator(name)
            <==> 1 <= |name| <= 32
                 && forall c | c in name :: 97 <= c as int <= 122 || 48 <= c as int <= 57 || c as int in {45, 46, 95}
  {
    assert forall i | 0 <= i < |name| :: name[i] in name;
  }

  /** A cached epoch answers for less than a minute, and never for the time before it was asked. */
  lemma HitsExactly(cache: Cache, operator: string, now: real)
    ensures Hits(cache, operator, now)
            <==> operator in cache && cache[operator].asked <= now < cache[operator].asked + 60.0
  {
  }

  // ── The epoch cache ──────────────────────────────────────────────────────────────────────────

  datatype Cached = Cached(epoch: nat, asked: real)

  type Cache = map<string, Cached>

  predicate IsFresh(cached: Cached, now: real) {
    0.0 <= now - cached.asked < EPOCH_CACHE_SECONDS
  }

  /** Whether a cache answers for a key. */
  predicate Hits<K>(cache: map<K, Cached>, key: K, now: real) {
    key in cache && IsFresh(cache[key], now)
  }

  /** The cache with an answer, under the time the question was asked. */
  function Remembering<K>(cache: map<K, Cached>, key: K, epoch: nat, asked: real): map<K, Cached> {
    cache[key := Cached(epoch, asked)]
  }

  /** One worker's `epochs` dictionary. */
  class EpochCache {
    var epochs: Cache

    constructor ()
      ensures epochs == map[]
    {
      epochs := map[];
    }

    /** `epoch`: the cached value while it is under a minute old, otherwise what the server answers,
        remembered under the time the question was asked. Nothing is remembered of a bad answer. */
    method Epoch(operator: string, fresh_: bool, now: real, answer: Option<int>) returns (r: Option<nat>)
      modifies this
      ensures !fresh_ && operator in old(epochs)
              && old(epochs)[operator].asked <= now < old(epochs)[operator].asked + 60.0
              ==> r == Some(old(epochs)[operator].epoch) && epochs == old(epochs)
      ensures fresh_ || !Hits(old(epochs), operator, now) ==>
                if answer.Some? && answer.value >= 0 then
                  r == Some(answer.value) && epochs == old(epochs)[operator := Cached(answer.value, now)]
                else r == None && epochs == old(epochs)
    {
      if !fresh_ && operator in epochs && IsFresh(epochs[operator], now) {
        return Some(epochs[operator].epoch);
      }
      if answer.None? || answer.value < 0 {
        return None;
      }
      epochs := epochs[operator := Cached(answer.value, now)];
      return Some(answer.value);
    }
  }
}
