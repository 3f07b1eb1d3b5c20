/** The user hooks of the auth template
    (src/templates/auth/src/db-models/hooks/User.js): the password hash
    stored before a user is created, the password check, and the session
    token kept in the cache under `auth:<token>`. The key-derivation
    function is an opaque parameter; random bytes are passed in; the cache
    is a class holding the keys and their expiries, and whether a cache call
    fails is a parameter. */
module AuthUser {
  import opened Wrappers

  type byte = x: int | 0 <= x < 256

  const Iterations := 1000
  const KeyLength := 64
  const Digest := "sha512"
  /** Seven days, in seconds. */
  const TokenLifetime := 60 * 60 * 24 * 7
  const TokenBytes := 32

  /** The error of reading the password of a record that is gone. */
  const NullRecordError := "Cannot read properties of null (reading 'password')"
  /** The error the key derivation throws when it is given no password. */
  const PasswordError :=
    "The \"password\" argument must be of type string or an instance of ArrayBuffer, Buffer, TypedArray, or DataView. Received undefined"
  /** The error the key derivation throws when it is given no salt. */
  const SaltError :=
    "The \"salt\" argument must be of type string or an instance of ArrayBuffer, Buffer, TypedArray, or DataView. Received undefined"

  /** What `pbkdf2Sync` is given. */
  datatype KdfInput = KdfInput(password: string, salt: string, iterations: nat, keyLength: nat, digest: string)

  /** The lower-case hexadecimal digit for `d`. */
  function HexDigit(d: nat): char
    requires d < 16
  {
    "0123456789abcdef"[d]
  }

  function HexDigitValue(c: char): nat {
    if '0' <= c <= '9' then c as nat - '0' as nat
    else if 'a' <= c <= 'f' then c as nat - 'a' as nat + 10
    else 0
  }

  lemma HexDigitRoundTrip(d: nat)
    requires d < 16
    ensures HexDigitValue(HexDigit(d)) == d
  {
  }

  /** `buffer.toString('hex')`: two lower-case digits per byte, high nibble
      first. */
  function Hex(bs: seq<byte>): (s: string)
    ensures |s| == 2 * |bs|
  {
    if bs == [] then ""
    else [HexDigit(bs[0] / 16), HexDigit(bs[0] % 16)] + Hex(bs[1..])
  }

  /** Reading hexadecimal back, two digits per byte. */
  function HexDecode(s: string): seq<byte>
    decreases |s|
  {
    if |s| < 2 then []
    else
      var b := 16 * HexDigitValue(s[0]) + HexDigitValue(s[1]);
      (if b < 256 then [b] else [0]) + HexDecode(s[2..])
  }

  /** The hexadecimal text gives back the bytes it was made from. */
  lemma {:induction false} HexRoundTrip(bs: seq<byte>)
    ensures HexDecode(Hex(bs)) == bs
  {
    if bs != [] {
      var s := Hex(bs);
      HexDigitRoundTrip(bs[0] / 16);
      HexDigitRoundTrip(bs[0] % 16);
      assert s[2..] == Hex(bs[1..]);
      HexRoundTrip(bs[1..]);
    }
  }

  /** Different bytes never share a hexadecimal text. */
  lemma HexInjective(a: seq<byte>, b: seq<byte>)
    ensures Hex(a) == Hex(b) <==> a == b
  {
    if Hex(a) == Hex(b) {
      HexRoundTrip(a);
      HexRoundTrip(b);
    }
  }

  /** The salt at create time: `ENCRYPTION_SALT`, or `''` when it is unset
      or empty. */
  function CreateSalt(envSalt: Option<string>): string {
    if envSalt.Some? then envSalt.value else ""
  }

  /** The stored form of a password under a salt. */
  function HashPassword(kdf: KdfInput -> seq<byte>, password: string, salt: string): string {
    Hex(kdf(KdfInput(password, salt, Iterations, KeyLength, Digest)))
  }

  /** Under one salt, two passwords give the same stored hash exactly when
      the key derivation gives them the same key. */
  lemma HashPasswordMatches(kdf: KdfInput -> seq<byte>, password: string, candidate: string, salt: string)
    ensures HashPassword(kdf, password, salt) == HashPassword(kdf, candidate, salt) <==>
      kdf(KdfInput(password, salt, Iterations, KeyLength, Digest)) == kdf(KdfInput(candidate, salt, Iterations, KeyLength, Digest))
  {
    HexInjective(kdf(KdfInput(password, salt, Iterations, KeyLength, Digest)),
                 kdf(KdfInput(candidate, salt, Iterations, KeyLength, Digest)));
  }

  /** `beforeCreate`: the password is replaced by its hash. */
  function BeforeCreate(kdf: KdfInput -> seq<byte>, password: string, envSalt: Option<string>): (stored: string)
    ensures stored == HashPassword(kdf, password, CreateSalt(envSalt))
  {
    HashPassword(kdf, password, CreateSalt(envSalt))
  }

  /** `isValidPassword(password)`: the record is fetched first (`stored` is
      `None` when it is gone), then the candidate is hashed under the raw
      `ENCRYPTION_SALT`, and only then is the stored hash read. So a missing
      candidate makes the key derivation throw first, an unset salt next,
      and a missing record only after both. */
  function IsValidPassword(kdf: KdfInput -> seq<byte>, stored: Option<string>, candidate: Option<string>, envSalt: Option<string>): (r: Result<bool, string>)
    ensures candidate.None? ==> r == Failure(PasswordError)
    ensures candidate.Some? && envSalt.None? ==> r == Failure(SaltError)
    ensures candidate.Some? && envSalt.Some? && stored.None? ==> r == Failure(NullRecordError)
    ensures r.Success? <==> candidate.Some? && envSalt.Some? && stored.Some?
    ensures r.Success? ==> (r.value <==> stored.value == HashPassword(kdf, candidate.value, envSalt.value))
  {
    if candidate.None? then Failure(PasswordError)
    else if envSalt.None? then Failure(SaltError)
    else if stored.None? then Failure(NullRecordError)
    else Success(stored.value == HashPassword(kdf, candidate.value, envSalt.value))
  }

  /** With the salt set, a password checks against the hash stored for it;
      another password checks only when the key derivation gives it the
      very same bytes. */
  lemma CreateThenVerify(kdf: KdfInput -> seq<byte>, password: string, candidate: string, salt: string)
    ensures IsValidPassword(kdf, Some(BeforeCreate(kdf, password, Some(salt))), Some(password), Some(salt)) == Success(true)
    ensures IsValidPassword(kdf, Some(BeforeCreate(kdf, password, Some(salt))), Some(candidate), Some(salt)) == Success(true) <==>
      kdf(KdfInput(password, salt, Iterations, KeyLength, Digest)) == kdf(KdfInput(candidate, salt, Iterations, KeyLength, Digest))
  {
    HexInjective(kdf(KdfInput(password, salt, Iterations, KeyLength, Digest)),
                 kdf(KdfInput(candidate, salt, Iterations, KeyLength, Digest)));
  }

  /** With the salt unset, users are still created (under the empty salt),
      but no password check can succeed: every one rejects. */
  lemma UnsetSaltRejects(kdf: KdfInput -> seq<byte>, password: string, candidate: string)
    ensures BeforeCreate(kdf, password, None) == HashPassword(kdf, password, "")
    ensures IsValidPassword(kdf, Some(BeforeCreate(kdf, password, None)), Some(candidate), None) == Failure(SaltError)
  {
  }

  /** The cache key of a session token. */
  function SessionKey(token: string): string {
    "auth:" + token
  }

  /** The cache as the auth code uses it: string values, and for the keys
      that have one, the instant (in seconds) at which the key expires. The
      clock is a parameter: a key whose instant has come is gone. */
  class SessionCache {
    var entries: map<string, string>
    var expiry: map<string, nat>

    constructor()
      ensures entries == map[] && expiry == map[]
    {
      entries := map[];
      expiry := map[];
    }

    /** `cache.get(key)` at instant `now`: the value of a key that is stored
        and has not expired. */
    function Get(key: string, now: nat): (r: Option<string>)
      reads this
      ensures r.Some? <==> key in entries && (key !in expiry || now < expiry[key])
      ensures r.Some? ==> r.value == entries[key]
    {
      if key in entries && (key !in expiry || now < expiry[key]) then Some(entries[key]) else None
    }

    /** `generateAuthToken` at instant `now`: a token of 32 random bytes in
        hexadecimal; the user's JSON is stored under `auth:<token>`, then
        given a seven-day expiry, then the token is returned. A plain `set`
        drops any expiry the key had. A failing `set` rejects with nothing
        stored; a failing `expire` rejects with the entry stored but no
        expiry. */
    method GenerateAuthToken(random: seq<byte>, userJson: string, now: nat, setError: Option<string>, expireError: Option<string>)
      returns (r: Result<string, string>)
      requires |random| == TokenBytes
      modifies this
      ensures var key := SessionKey(Hex(random));
        match (setError, expireError)
        case (Some(e), _) => r == Failure(e) && entries == old(entries) && expiry == old(expiry)
        case (None, Some(e)) =>
          r == Failure(e) && entries == old(entries)[key := userJson] && expiry == old(expiry) - {key}
        case (None, None) =>
          r == Success(Hex(random)) && entries == old(entries)[key := userJson] &&
          expiry == old(expiry)[key := now + TokenLifetime]
      ensures r.Success? ==> |r.value| == 2 * TokenBytes
    {
      var token := Hex(random);
      var key := SessionKey(token);
      if setError.Some? {
        return Failure(setError.value);
      }
      entries := entries[key := userJson];
      expiry := expiry - {key};
      if expireError.Some? {
        return Failure(expireError.value);
      }
      expiry := expiry[key := now + TokenLifetime];
      r := Success(token);
    }

    /** `cache.del(key)`: removes the key and its expiry; a failing call
        rejects with its error and changes nothing. */
    method Del(key: string, delError: Option<string>) returns (r: Result<(), string>)
      modifies this
      ensures delError.Some? ==> r == Failure(delError.value) && entries == old(entries) && expiry == old(expiry)
      ensures delError.None? ==> r == Success(()) && entries == old(entries) - {key} && expiry == old(expiry) - {key}
    {
      if delError.Some? {
        return Failure(delError.value);
      }
      entries := entries - {key};
      expiry := expiry - {key};
      r := Success(());
    }

    /** `removeAuthToken(token)`: deletes `auth:<token>`, rejecting when the
        deletion does. */
    method RemoveAuthToken(token: string, delError: Option<string>) returns (r: Result<(), string>)
      modifies this
      ensures delError.Some? ==> r == Failure(delError.value) && entries == old(entries) && expiry == old(expiry)
      ensures delError.None? ==>
        r == Success(()) && entries == old(entries) - {SessionKey(token)} && expiry == old(expiry) - {SessionKey(token)}
    {
      r := Del(SessionKey(token), delError);
    }
  }

  /** A token generated and then removed leaves no cache entry and no expiry
      for it, and every other key as it was. */
  method GenerateThenRemove(cache: SessionCache, random: seq<byte>, userJson: string, now: nat)
    returns (token: Result<string, string>, removed: Result<(), string>)
    requires |random| == TokenBytes
    modifies cache
    ensures token.Success? && removed.Success?
    ensures SessionKey(token.value) !in cache.entries && SessionKey(token.value) !in cache.expiry
    ensures forall k :: k != SessionKey(token.value) ==>
      (k in cache.entries <==> k in old(cache.entries)) && (k in cache.entries ==> cache.entries[k] == old(cache.entries)[k])
  {
    token := cache.GenerateAuthToken(random, userJson, now, None, None);
    removed := cache.RemoveAuthToken(token.value, None);
  }

  /** A session made at `now` can be read back exactly until seven days
      have passed. */
  method SessionLifetime(cache: SessionCache, random: seq<byte>, userJson: string, now: nat, later: nat)
    returns (token: Result<string, string>)
    requires |random| == TokenBytes
    modifies cache
    ensures token.Success?
    ensures cache.Get(SessionKey(token.value), later).Some? <==> later < now + TokenLifetime
    ensures later < now + TokenLifetime ==> cache.Get(SessionKey(token.value), later) == Some(userJson)
  {
    token := cache.GenerateAuthToken(random, userJson, now, None, None);
  }
}
