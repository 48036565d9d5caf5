/** `getAESKey.py`: validates an NT hash given on the command line and
    derives two keys from it with HMAC-SHA1 (RFC 2104) over the account's
    identity. HMAC-SHA1 itself is a parameter: any function returning a
    20-byte digest. */
module AesKey {
  import opened Text
  import opened Codec

  /** A SHA-1 digest is 20 bytes. */
  type Digest = d: seq<byte> | |d| == 20 witness seq(20, _ => 0)

  /** `HMAC.new(key, msg, SHA1).digest()`. */
  type Mac = (seq<byte>, seq<byte>) -> Digest

  datatype Result<T> = Ok(value: T) | Error(message: string)

  predicate IsAscii(s: string) {
    forall i :: 0 <= i < |s| ==> s[i] as int < 128
  }

  /** `binascii.unhexlify` with its error messages. A non-ASCII `str`
      raises a plain ValueError; the other failures raise binascii.Error. */
  datatype UnhexOutcome = Bytes(bytes: seq<byte>) | NotAscii | OddLength | NonHexDigit

  function Unhex(s: string): UnhexOutcome {
    if !IsAscii(s) then NotAscii
    else if |s| % 2 != 0 then OddLength
    else if Unhexlify(s).None? then NonHexDigit
    else Bytes(Unhexlify(s).value)
  }

  const NotAsciiMessage := "string argument should contain only ASCII characters"

  // =====================================================================
  // validate_nt_hash

  /** None when the hash is accepted, else the ValueError's message. */
  function ValidateNtHash(ntHash: string): Option<string> {
    if |ntHash| != 32 then Some("NT hash must be exactly 32 hexadecimal characters.")
    else
      match Unhex(ntHash)
      case NotAscii => Some(NotAsciiMessage)
      case OddLength => Some("NT hash contains invalid characters.")
      case NonHexDigit => Some("NT hash contains invalid characters.")
      case Bytes(_) => None
  }

  lemma UnhexSpec(s: string)
    ensures Unhex(s).Bytes? <==> |s| % 2 == 0 && forall i :: 0 <= i < |s| ==> IsHexChar(s[i])
    ensures Unhex(s).Bytes? ==> |Unhex(s).bytes| == |s| / 2 && Hex(Unhex(s).bytes) == Lower(s)
  {
    UnhexlifyDefined(s);
    if |s| % 2 == 0 && forall i :: 0 <= i < |s| ==> IsHexChar(s[i]) {
      forall i | 0 <= i < |s| ensures s[i] as int < 128 {
        assert IsHexChar(s[i]);
      }
      HexOfUnhexlify(s);
    }
  }

  /** `unhexlify` then `hex` lower-cases the digits. */
  lemma {:induction false} HexOfUnhexlify(s: string)
    requires Unhexlify(s).Some?
    ensures Hex(Unhexlify(s).value) == Lower(s)
    decreases |s|
  {
    if s != [] {
      HexOfUnhexlify(s[2..]);
      var hi, lo := HexValue(s[0]).value, HexValue(s[1]).value;
      var b := hi * 16 + lo;
      assert b / 16 == hi && b % 16 == lo;
      assert HexDigit(hi) == LowerChar(s[0]);
      assert HexDigit(lo) == LowerChar(s[1]);
      assert Lower(s) == [LowerChar(s[0]), LowerChar(s[1])] + Lower(s[2..]);
    }
  }

  /** The hash is accepted exactly when it is 32 hexadecimal digits; its
      value is then 16 bytes. A wrong length is reported before any bad
      character. */
  lemma ValidateSpec(ntHash: string)
    ensures ValidateNtHash(ntHash).None? <==> |ntHash| == 32 && forall i :: 0 <= i < |ntHash| ==> IsHexChar(ntHash[i])
    ensures |ntHash| != 32 ==> ValidateNtHash(ntHash) == Some("NT hash must be exactly 32 hexadecimal characters.")
    ensures ValidateNtHash(ntHash).None? ==> Unhex(ntHash).Bytes? && |Unhex(ntHash).bytes| == 16
  {
    UnhexSpec(ntHash);
  }

  // =====================================================================
  // derive_aes_keys

  /** `(username.upper() + domain).encode('utf-16-le')`. */
  function Identity(username: string, domain: string): seq<byte> {
    Utf16LeEncode(Upper(username) + domain)
  }

  /** The identity decodes back to the upper-cased name followed by the
      unchanged domain, the name's bytes first. */
  lemma IdentitySpec(username: string, domain: string)
    ensures Utf16LeDecode(Identity(username, domain)) == Some(Upper(username) + domain)
    ensures Identity(username, domain) == Utf16LeEncode(Upper(username)) + Utf16LeEncode(domain)
  {
    Utf16LeRoundTrip(Upper(username) + domain);
    Utf16LeAppend(Upper(username), domain);
  }

  /** The two keys as `bytes.hex()` strings. */
  datatype Keys = Keys(aes128: string, aes256: string)

  function DeriveAesKeys(ntHash: string, username: string, domain: string, mac: Mac): Result<Keys> {
    match Unhex(ntHash)
    case NotAscii => Error(NotAsciiMessage)
    case OddLength => Error("Invalid NT hash format: Odd-length string")
    case NonHexDigit => Error("Invalid NT hash format: Non-hexadecimal digit found")
    case Bytes(key) =>
      var digest := mac(key, Identity(username, domain));
      var aes128 := digest[..16];
      // `digest()[:32]` of a 20-byte digest is the whole digest.
      var aes256 := digest[..if |digest| < 32 then |digest| else 32];
      Ok(Keys(Hex(aes128), Hex(aes256)))
  }

  /** For a hash `validate_nt_hash` accepts, both keys are lower-case hex
      of HMAC-SHA1 keyed with the hash's 16 bytes over the identity: the
      128-bit key is the digest's first 16 bytes, and the "256-bit" key is
      the whole 20-byte digest, so it has 40 digits and begins with the
      128-bit key. */
  lemma DeriveSpec(ntHash: string, username: string, domain: string, mac: Mac)
    requires ValidateNtHash(ntHash).None?
    ensures DeriveAesKeys(ntHash, username, domain, mac).Ok?
    ensures var keys := DeriveAesKeys(ntHash, username, domain, mac).value;
      var digest := mac(Unhex(ntHash).bytes, Identity(username, domain));
      && |Unhex(ntHash).bytes| == 16
      && Unhexlify(keys.aes128) == Some(digest[..16])
      && Unhexlify(keys.aes256) == Some(digest[..])
      && |keys.aes128| == 32 && |keys.aes256| == 40
      && keys.aes128 == keys.aes256[..32]
      && forall i :: 0 <= i < |keys.aes256| ==> IsLowerHexChar(keys.aes256[i])
  {
    ValidateSpec(ntHash);
    var digest := mac(Unhex(ntHash).bytes, Identity(username, domain));
    assert digest[..20] == digest;
    HexRoundTrip(digest[..16]);
    HexRoundTrip(digest[..]);
    HexPrefix(digest, 16);
  }

  /** `derive_aes_keys` alone is looser than the command: it accepts any
      even-length hex string as a key, so the 32-digit rule is enforced
      only by `validate_nt_hash`. */
  lemma DeriveAcceptsShortKey(username: string, domain: string, mac: Mac)
    ensures ValidateNtHash("00").Some?
    ensures DeriveAesKeys("00", username, domain, mac).Ok?
  {
    var s := "00";
    assert s[2..] == [];
    assert HexValue(s[0]) == Some(0) && HexValue(s[1]) == Some(0);
    assert Unhexlify(s[2..]) == Some([]);
    assert Unhexlify(s).Some?;
    assert IsAscii(s);
  }

  // =====================================================================
  // parse_arguments and main

  datatype Command = Command(ntHash: string, username: string, domain: string)

  datatype Outcome = Printed(keys: Keys) | Exit(message: string)

  const UsageError := "usage"

  /** `parse_arguments`: exactly three arguments after the script name, and
      a hash `validate_nt_hash` accepts. */
  function ParseArguments(argv: seq<string>): Result<Command> {
    if |argv| != 4 then Error(UsageError)
    else
      match ValidateNtHash(argv[1])
      case Some(message) => Error("Error: " + message)
      case None => Ok(Command(argv[1], argv[2], argv[3]))
  }

  function Run(argv: seq<string>, mac: Mac): Outcome {
    match ParseArguments(argv)
    case Error(message) => Exit(message)
    case Ok(cmd) =>
      match DeriveAesKeys(cmd.ntHash, cmd.username, cmd.domain, mac)
      case Error(message) => Exit("Error: " + message)
      case Ok(keys) => Printed(keys)
  }

  /** The command prints keys exactly when it has three arguments and the
      first is 32 hexadecimal digits; then the keys are those of
      `derive_aes_keys`, whose own error path cannot be reached. */
  lemma RunSpec(argv: seq<string>, mac: Mac)
    ensures Run(argv, mac).Printed? <==>
              |argv| == 4 && |argv[1]| == 32 && forall i :: 0 <= i < |argv[1]| ==> IsHexChar(argv[1][i])
    ensures |argv| != 4 ==> Run(argv, mac) == Exit(UsageError)
    ensures Run(argv, mac).Printed? ==> Run(argv, mac).keys == DeriveAesKeys(argv[1], argv[2], argv[3], mac).value
  {
    if |argv| == 4 {
      ValidateSpec(argv[1]);
      if ValidateNtHash(argv[1]).None? {
        DeriveSpec(argv[1], argv[2], argv[3], mac);
      }
    }
  }
}
