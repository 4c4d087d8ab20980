/** The printed form of a password hash and its parser. Argon2 itself is an arbitrary function. */
module PasswordHash {
  import opened Prelude
  import opened Base64
  import GoText

  /** argon2.Version. */
  const VERSION: nat := 19

  /** The cost parameters, in the widths of Go's uint32 and uint8. */
  datatype Config = Config(time: nat, memory: nat, threads: nat)

  predicate InRange(c: Config) {
    c.time < 0x1_0000_0000 && c.memory < 0x1_0000_0000 && c.threads < 0x100
  }

  /** Argon2 in its id variant: password, salt, parameters and length of the key to derive. */
  type Argon2 = (seq<Byte>, seq<Byte>, Config, nat) -> seq<Byte>

  const DEFAULT_CONFIG: Config := Config(1, 64 * 1024, 4)
  const KEY_LENGTH: nat := 32

  datatype HashError = InvalidFormat | UnsupportedAlgorithm | BadVersion | BadParameters | BadSalt | BadDigest

  datatype Parsed = Parsed(version: int, config: Config, salt: seq<Byte>, digest: seq<Byte>)

  // ---- printing --------------------------------------------------------------------------------------

  function VersionText(version: nat): string {
    "v=" + GoText.Itoa(version)
  }

  function ConfigText(c: Config): string {
    "m=" + (GoText.Itoa(c.memory) + (",t=" + (GoText.Itoa(c.time) + (",p=" + GoText.Itoa(c.threads)))))
  }

  function PrintHash(version: nat, c: Config, salt: seq<Byte>, digest: seq<Byte>): string {
    "$argon2id$" + (VersionText(version)
      + ("$" + (ConfigText(c) + ("$" + (EncodeToString(salt) + ("$" + EncodeToString(digest)))))))
  }

  function HashPassword(argon2: Argon2, c: Config, password: seq<Byte>, salt: seq<Byte>): string {
    PrintHash(VERSION, c, salt, argon2(password, salt, c, KEY_LENGTH))
  }

  // ---- parsing ---------------------------------------------------------------------------------------

  /** strings.Split. */
  function Split(s: string, sep: char): (parts: seq<string>)
    ensures parts != []
  {
    if s == "" then [""]
    else
      var rest := Split(s[1..], sep);
      if s[0] == sep then [""] + rest else [[s[0]] + rest[0]] + rest[1..]
  }

  function DigitPrefix(s: string): (n: nat)
    ensures n <= |s| && forall i :: 0 <= i < n ==> GoText.IsDigit(s[i])
  {
    if s != "" && GoText.IsDigit(s[0]) then DigitPrefix(s[1..]) + 1 else 0
  }

  function SkipSpaces(s: string): string {
    if s != "" && GoText.IsSpace(s[0]) && s[0] != '\n' then SkipSpaces(s[1..]) else s
  }

  /** The %d verb for an unsigned target: spaces, digits, and the value must be below limit. */
  function ScanUnsigned(s: string, limit: nat): Option<(nat, string)> {
    var t := SkipSpaces(s);
    var n := DigitPrefix(t);
    if n == 0 || GoText.Value(t[..n]) >= limit then None else Some((GoText.Value(t[..n]), t[n..]))
  }

  /** The %d verb for an int target, which may carry a sign. */
  function ScanSigned(s: string): Option<(int, string)> {
    var t := SkipSpaces(s);
    var negative := t != "" && t[0] == '-';
    var digits := if t != "" && (t[0] == '-' || t[0] == '+') then t[1..] else t;
    var n := DigitPrefix(digits);
    if n == 0 then None
    else
      var v: int := if negative then -(GoText.Value(digits[..n]) as int) else GoText.Value(digits[..n]);
      if GoText.MIN_INT <= v <= GoText.MAX_INT then Some((v, digits[n..])) else None
  }

  function ScanLiteral(s: string, literal: string): Option<string> {
    if GoText.HasPrefix(s, literal) then Some(s[|literal|..]) else None
  }

  /** Sscanf(s, "v=%d"); what follows the number is not looked at. */
  function ScanVersion(s: string): Option<int> {
    match ScanLiteral(s, "v=")
    case None => None
    case Some(rest) => match ScanSigned(rest) case None => None case Some((v, _)) => Some(v)
  }

  function ScanField(s: string, literal: string, limit: nat): Option<(nat, string)> {
    match ScanLiteral(s, literal)
    case None => None
    case Some(rest) => ScanUnsigned(rest, limit)
  }

  /** Sscanf(s, "m=%d,t=%d,p=%d"). */
  function ScanConfig(s: string): Option<Config> {
    match ScanField(s, "m=", 0x1_0000_0000)
    case None => None
    case Some((memory, s1)) =>
      match ScanField(s1, ",t=", 0x1_0000_0000)
      case None => None
      case Some((time, s2)) =>
        match ScanField(s2, ",p=", 0x100)
        case None => None
        case Some((threads, _)) => Some(Config(time, memory, threads))
  }

  function ParseParts(parts: seq<string>): Result<Parsed, HashError> {
    if |parts| != 6 then Err(InvalidFormat)
    else if parts[1] != "argon2id" then Err(UnsupportedAlgorithm)
    else
      match ScanVersion(parts[2])
      case None => Err(BadVersion)
      case Some(version) =>
        match ScanConfig(parts[3])
        case None => Err(BadParameters)
        case Some(config) =>
          match DecodeString(parts[4])
          case None => Err(BadSalt)
          case Some(salt) =>
            match DecodeString(parts[5])
            case None => Err(BadDigest)
            case Some(digest) => Ok(Parsed(version, config, salt, digest))
  }

  function ParseHash(hash: string): Result<Parsed, HashError> {
    ParseParts(Split(hash, '$'))
  }

  /** Go's conversion to uint32. */
  function Uint32(n: nat): nat {
    if n < 0x1_0000_0000 then n else n % 0x1_0000_0000
  }

  /** The password is right when deriving a key of the stored length from it gives the stored key. */
  function VerifyPassword(argon2: Argon2, password: seq<Byte>, hash: string): Result<bool, HashError> {
    match ParseHash(hash)
    case Err(e) => Err(e)
    case Ok(p) => Ok(argon2(password, p.salt, p.config, Uint32(|p.digest|)) == p.digest)
  }

  // ---- what was printed parses back ------------------------------------------------------------------

  lemma {:induction false} SplitAtFirst(a: string, b: string, sep: char)
    requires forall i :: 0 <= i < |a| ==> a[i] != sep
    ensures Split(a + ([sep] + b), sep) == [a] + Split(b, sep)
  {
    var s := a + ([sep] + b);
    if a == "" {
      assert s[1..] == b;
    } else {
      assert s[1..] == a[1..] + ([sep] + b);
      SplitAtFirst(a[1..], b, sep);
      assert [a[0]] + a[1..] == a;
    }
  }

  lemma {:induction false} SplitWhole(a: string, sep: char)
    requires forall i :: 0 <= i < |a| ==> a[i] != sep
    ensures Split(a, sep) == [a]
  {
    if a != "" {
      SplitWhole(a[1..], sep);
      assert [a[0]] + a[1..] == a;
    }
  }

  lemma {:induction false} DigitsThenOther(digits: string, rest: string)
    requires forall i :: 0 <= i < |digits| ==> GoText.IsDigit(digits[i])
    requires rest == "" || !GoText.IsDigit(rest[0])
    ensures DigitPrefix(digits + rest) == |digits|
  {
    if digits == "" {
      assert digits + rest == rest;
    } else {
      assert (digits + rest)[1..] == digits[1..] + rest;
      DigitsThenOther(digits[1..], rest);
    }
  }

  lemma ScanNumber(digits: string, rest: string, limit: nat)
    requires GoText.AllDigits(digits) && (rest == "" || !GoText.IsDigit(rest[0]))
    ensures GoText.Value(digits) < limit ==> ScanUnsigned(digits + rest, limit) == Some((GoText.Value(digits), rest))
    ensures GoText.Value(digits) <= GoText.MAX_INT ==>
        ScanSigned(digits + rest) == Some((GoText.Value(digits) as int, rest))
  {
    var s := digits + rest;
    assert GoText.IsDigit(digits[0]) && s[0] == digits[0];
    assert SkipSpaces(s) == s;
    DigitsThenOther(digits, rest);
    assert s[..|digits|] == digits && s[|digits|..] == rest;
  }

  lemma ScanPrinted(n: nat, rest: string, limit: nat)
    requires rest == "" || !GoText.IsDigit(rest[0])
    ensures n < limit ==> ScanUnsigned(GoText.Itoa(n) + rest, limit) == Some((n, rest))
    ensures n <= GoText.MAX_INT ==> ScanSigned(GoText.Itoa(n) + rest) == Some((n as int, rest))
  {
    GoText.ValueOfItoa(n);
    ScanNumber(GoText.Itoa(n), rest, limit);
  }

  lemma VersionReadsBack(version: nat)
    requires version <= GoText.MAX_INT
    ensures ScanVersion(VersionText(version)) == Some(version)
  {
    ScanPrinted(version, "", 0);
    assert GoText.Itoa(version) + "" == GoText.Itoa(version);
    assert VersionText(version)[..2] == "v=" && VersionText(version)[2..] == GoText.Itoa(version);
  }

  lemma FieldReadsBack(literal: string, n: nat, rest: string, limit: nat)
    requires n < limit && (rest == "" || !GoText.IsDigit(rest[0]))
    ensures ScanField(literal + (GoText.Itoa(n) + rest), literal, limit) == Some((n, rest))
  {
    var s := literal + (GoText.Itoa(n) + rest);
    assert s[..|literal|] == literal && s[|literal|..] == GoText.Itoa(n) + rest;
    ScanPrinted(n, rest, limit);
  }

  lemma ConfigReadsBack(c: Config)
    requires InRange(c)
    ensures ScanConfig(ConfigText(c)) == Some(c)
  {
    var s2 := ",p=" + GoText.Itoa(c.threads);
    var s1 := ",t=" + (GoText.Itoa(c.time) + s2);
    assert GoText.Itoa(c.threads) + "" == GoText.Itoa(c.threads);
    FieldReadsBack(",p=", c.threads, "", 0x100);
    FieldReadsBack(",t=", c.time, s2, 0x1_0000_0000);
    FieldReadsBack("m=", c.memory, s1, 0x1_0000_0000);
  }

  predicate NoDollar(s: string) {
    forall i :: 0 <= i < |s| ==> s[i] != '$'
  }

  lemma PrintedFieldsHaveNoDollar(version: nat, c: Config)
    ensures NoDollar(VersionText(version)) && NoDollar(ConfigText(c))
  {
  }

  /** One field, a separator and what follows. */
  function Join(field: string, rest: string): string {
    field + ("$" + rest)
  }

  lemma SplitJoin(field: string, rest: string)
    requires NoDollar(field)
    ensures Split(Join(field, rest), '$') == [field] + Split(rest, '$')
  {
    SplitAtFirst(field, rest, '$');
  }

  /** Fields behind separators, in the shape they are printed in. */
  lemma SplitFields(version: string, config: string, salt: string, digest: string)
    requires NoDollar(version) && NoDollar(config) && NoDollar(salt) && NoDollar(digest)
    ensures Split(Join("", Join("argon2id", Join(version, Join(config, Join(salt, digest))))), '$')
         == ["", "argon2id", version, config, salt, digest]
  {
    SplitWhole(digest, '$');
    SplitJoin(salt, digest);
    SplitJoin(config, Join(salt, digest));
    SplitJoin(version, Join(config, Join(salt, digest)));
    SplitJoin("argon2id", Join(version, Join(config, Join(salt, digest))));
    SplitJoin("", Join("argon2id", Join(version, Join(config, Join(salt, digest)))));
  }

  lemma PrintedShape(version: string, config: string, salt: string, digest: string)
    ensures "$argon2id$" + (version + ("$" + (config + ("$" + (salt + ("$" + digest))))))
         == Join("", Join("argon2id", Join(version, Join(config, Join(salt, digest)))))
  {
    var rest := Join(version, Join(config, Join(salt, digest)));
    assert "$argon2id$" + rest == "" + ("$" + ("argon2id" + ("$" + rest)));
  }

  lemma SplitPrinted(version: nat, c: Config, salt: seq<Byte>, digest: seq<Byte>)
    ensures Split(PrintHash(version, c, salt, digest), '$')
         == ["", "argon2id", VersionText(version), ConfigText(c), EncodeToString(salt), EncodeToString(digest)]
  {
    PrintedFieldsHaveNoDollar(version, c);
    DecodeOfEncode(salt);
    DecodeOfEncode(digest);
    SplitFields(VersionText(version), ConfigText(c), EncodeToString(salt), EncodeToString(digest));
    PrintedShape(VersionText(version), ConfigText(c), EncodeToString(salt), EncodeToString(digest));
  }

  lemma PartsParse(parts: seq<string>, p: Parsed)
    requires |parts| == 6 && parts[1] == "argon2id"
    requires ScanVersion(parts[2]) == Some(p.version) && ScanConfig(parts[3]) == Some(p.config)
    requires DecodeString(parts[4]) == Some(p.salt) && DecodeString(parts[5]) == Some(p.digest)
    ensures ParseParts(parts) == Ok(p)
  {
  }

  lemma FieldsParse(hash: string, version: string, config: string, salt: string, digest: string, p: Parsed)
    requires Split(hash, '$') == ["", "argon2id", version, config, salt, digest]
    requires ScanVersion(version) == Some(p.version) && ScanConfig(config) == Some(p.config)
    requires DecodeString(salt) == Some(p.salt) && DecodeString(digest) == Some(p.digest)
    ensures ParseHash(hash) == Ok(p)
  {
    PartsParse(Split(hash, '$'), p);
  }

  /** Version, parameters, salt and digest are recovered from what was printed. */
  lemma PrintedHashParsesBack(version: nat, c: Config, salt: seq<Byte>, digest: seq<Byte>)
    requires version <= GoText.MAX_INT && InRange(c)
    ensures ParseHash(PrintHash(version, c, salt, digest)) == Ok(Parsed(version, c, salt, digest))
  {
    SplitPrinted(version, c, salt, digest);
    VersionReadsBack(version);
    ConfigReadsBack(c);
    DecodeOfEncode(salt);
    DecodeOfEncode(digest);
    FieldsParse(PrintHash(version, c, salt, digest), VersionText(version), ConfigText(c),
                EncodeToString(salt), EncodeToString(digest), Parsed(version, c, salt, digest));
  }

  lemma VerifyParsed(argon2: Argon2, attempt: seq<Byte>, hash: string, p: Parsed)
    requires ParseHash(hash) == Ok(p) && |p.digest| == KEY_LENGTH
    ensures VerifyPassword(argon2, attempt, hash) == Ok(argon2(attempt, p.salt, p.config, KEY_LENGTH) == p.digest)
  {
  }

  /** A password verifies against a printed hash exactly when it derives the same key as the one hashed;
      in particular every password verifies against its own hash. */
  lemma VerifiesExactlyItsKey(argon2: Argon2, c: Config, password: seq<Byte>, salt: seq<Byte>, attempt: seq<Byte>)
    requires InRange(c) && |argon2(password, salt, c, KEY_LENGTH)| == KEY_LENGTH
    ensures VerifyPassword(argon2, attempt, HashPassword(argon2, c, password, salt))
         == Ok(argon2(attempt, salt, c, KEY_LENGTH) == argon2(password, salt, c, KEY_LENGTH))
    ensures VerifyPassword(argon2, password, HashPassword(argon2, c, password, salt)) == Ok(true)
  {
    var key := argon2(password, salt, c, KEY_LENGTH);
    var hash, p := HashPassword(argon2, c, password, salt), Parsed(VERSION, c, salt, key);
    PrintedHashParsesBack(VERSION, c, salt, key);
    VerifyParsed(argon2, attempt, hash, p);
    VerifyParsed(argon2, password, hash, p);
  }

  /** The parameters in use are in range, so the theorem applies to every hash the service prints. */
  lemma DefaultsInRange()
    ensures InRange(DEFAULT_CONFIG)
  {
  }
}
