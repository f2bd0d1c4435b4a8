/** argon2id password hashes: the PHC string that Hash prints and Verify parses.
    Argon2 itself is a parameter. */
module PasswordHash {
  import opened Wrappers
  import opened Text
  import opened Decimal
  import opened Base64

  const VERSION: nat := 19
  const TIME: nat := 3
  const MEMORY: nat := 64 * 1024
  const THREADS: nat := 2
  const SALT_LEN: nat := 16
  const KEY_LEN: nat := 32
  const MAX_UINT32: nat := 0xFFFF_FFFF
  const MAX_UINT8: nat := 0xFF

  /** argon2.IDKey(password, salt, time, memory, threads, keyLen) */
  type IDKey = (string, seq<Byte>, nat, nat, nat, nat) -> seq<Byte>

  datatype HashError = PlaintextRequired | NoEntropy | InvalidHash | IncompatibleVersion | Mismatch

  datatype Decoded = Decoded(memory: nat, time: nat, threads: nat, salt: seq<Byte>, key: seq<Byte>)

  predicate Fits(d: Decoded) {
    d.memory <= MAX_UINT32 && d.time <= MAX_UINT32 && d.threads <= MAX_UINT8
  }

  // ----- printing -----

  /** v=%d, followed by `more` */
  function VersionPart(version: nat, more: string): string {
    "v=" + (Print(version) + more)
  }

  /** m=%d,t=%d,p=%d, followed by `more` */
  function CostPart(d: Decoded, more: string): string {
    "m=" + (Print(d.memory) + (",t=" + (Print(d.time) + (",p=" + (Print(d.threads) + more)))))
  }

  function Parts(version: nat, d: Decoded, more: string): seq<string> {
    ["", "argon2id", VersionPart(version, more), CostPart(d, more), EncodeRaw(d.salt), EncodeRaw(d.key)]
  }

  /** $argon2id$v=%d$m=%d,t=%d,p=%d$%s$%s */
  function Format(version: nat, d: Decoded): string {
    Join(Parts(version, d, ""), '$')
  }

  lemma {:induction false} PrintMemory()
    ensures Print(65536) == "65536"
  {
    hide Print;
    PrintAppends(0, 6);
    PrintAppends(6, 5);
    assert Print(65) == "65";
    PrintAppends(65, 5);
    PrintAppends(655, 3);
    assert Print(6553) == "6553";
    PrintAppends(6553, 6);
  }

  lemma {:induction false} PrintOthers()
    ensures Print(19) == "19" && Print(3) == "3" && Print(2) == "2"
  {
    hide Print;
    PrintAppends(0, 1);
    PrintAppends(1, 9);
    PrintAppends(0, 3);
    PrintAppends(0, 2);
  }

  lemma PrintedNumbers(d: Decoded)
    requires d.memory == 65536 && d.time == 3 && d.threads == 2
    ensures VersionPart(19, "") == "v=19" && CostPart(d, "") == "m=65536,t=3,p=2"
  {
    PrintMemory();
    PrintOthers();
    hide Print;
    assert "p=" + ("2" + "") == "p=2";
  }

  lemma {:induction false} PrintedCosts(salt: seq<Byte>, key: seq<Byte>)
    ensures Format(VERSION, Decoded(MEMORY, TIME, THREADS, salt, key))
            == "$argon2id$v=19$m=65536,t=3,p=2$" + EncodeRaw(salt) + "$" + EncodeRaw(key)
  {
    hide Print, EncodeRaw, VersionPart, CostPart, Join;
    var d := Decoded(MEMORY, TIME, THREADS, salt, key);
    PrintedNumbers(d);
    JoinSix("", "argon2id", "v=19", "m=65536,t=3,p=2", EncodeRaw(salt), EncodeRaw(key));
    HeadIs();
  }

  lemma HeadIs()
    ensures "" + "$" + "argon2id" + "$" + "v=19" + "$" + "m=65536,t=3,p=2" + "$" == "$argon2id$v=19$m=65536,t=3,p=2$"
  {
  }

  lemma {:induction false} JoinSix(a: string, b: string, c: string, d: string, e: string, f: string)
    ensures Join([a, b, c, d, e, f], '$') == a + "$" + b + "$" + c + "$" + d + "$" + e + "$" + f
  {
    assert [a, b, c, d, e, f][1..] == [b, c, d, e, f] && [b, c, d, e, f][1..] == [c, d, e, f];
    assert [c, d, e, f][1..] == [d, e, f] && [d, e, f][1..] == [e, f] && [e, f][1..] == [f];
    assert Join([e, f], '$') == e + "$" + f;
    assert Join([d, e, f], '$') == d + "$" + (e + "$" + f);
    assert Join([c, d, e, f], '$') == c + "$" + (d + "$" + (e + "$" + f));
    assert Join([b, c, d, e, f], '$') == b + "$" + (c + "$" + (d + "$" + (e + "$" + f)));
  }

  method Hash(idKey: IDKey, plaintext: string, salt: seq<Byte>, noEntropy: bool)
    returns (r: Result<string, HashError>)
    requires |salt| == 16
    ensures
      r == if plaintext == "" then Err(PlaintextRequired)
           else if noEntropy then Err(NoEntropy)
           else Ok(Format(VERSION, Decoded(MEMORY, TIME, THREADS, salt,
                                           idKey(plaintext, salt, TIME, MEMORY, THREADS, KEY_LEN))))
    ensures r.Ok? ==>
              r.value == "$argon2id$v=19$m=65536,t=3,p=2$" + EncodeRaw(salt) + "$"
                         + EncodeRaw(idKey(plaintext, salt, 3, 65536, 2, 32))
  {
    if plaintext == "" {
      return Err(PlaintextRequired);
    }
    if noEntropy {
      return Err(NoEntropy);
    }
    var key := idKey(plaintext, salt, TIME, MEMORY, THREADS, KEY_LEN);
    PrintedCosts(salt, key);
    return Ok(Format(VERSION, Decoded(MEMORY, TIME, THREADS, salt, key)));
  }

  // ----- parsing -----

  /** fmt.Sscanf(s, "v=%d", &version); what follows the number is not looked at. */
  function ScanVersion(s: string): Option<int> {
    match ScanLiteral(s, "v=")
    case None => None
    case Some(t) =>
      match ScanInt(t)
      case None => None
      case Some(v) => Some(v.value)
  }

  function ScanField(s: string, literal: string, max: nat): Option<Scanned> {
    match ScanLiteral(s, literal)
    case None => None
    case Some(t) => ScanUint(t, max)
  }

  /** fmt.Sscanf(s, "m=%d,t=%d,p=%d", &mem, &time, &threads) */
  function ScanCost(s: string): Option<(int, int, int)> {
    match ScanField(s, "m=", MAX_UINT32)
    case None => None
    case Some(m) =>
      match ScanField(m.rest, ",t=", MAX_UINT32)
      case None => None
      case Some(t) =>
        match ScanField(t.rest, ",p=", MAX_UINT8)
        case None => None
        case Some(p) => Some((m.value, t.value, p.value))
  }

  lemma ScansAreNat(s: string)
    ensures ScanCost(s).Some? ==> ScanCost(s).value.0 >= 0 && ScanCost(s).value.1 >= 0 && ScanCost(s).value.2 >= 0
  {
  }

  function Decode(encoded: string): Result<Decoded, HashError> {
    var parts := Split(encoded, '$');
    if |parts| != 6 || parts[1] != "argon2id" then Err(InvalidHash)
    else
      match ScanVersion(parts[2])
      case None => Err(InvalidHash)
      case Some(version) =>
        if version != VERSION then Err(IncompatibleVersion)
        else
          match ScanCost(parts[3])
          case None => Err(InvalidHash)
          case Some(cost) =>
            match (DecodeRaw(parts[4]), DecodeRaw(parts[5]))
            case (Some(salt), Some(key)) =>
              ScansAreNat(parts[3]);
              Ok(Decoded(cost.0, cost.1, cost.2, salt, key))
            case _ => Err(InvalidHash)
  }

  method Verify(idKey: IDKey, plaintext: string, encoded: string) returns (r: Result<(), HashError>)
    ensures
      match Decode(encoded)
      case Err(e) => r == Err(e)
      case Ok(d) =>
        r == if idKey(plaintext, d.salt, d.time, d.memory, d.threads, |d.key| % 0x1_0000_0000) == d.key
             then Ok(()) else Err(Mismatch)
  {
    var d := Decode(encoded);
    if d.Err? {
      return Err(d.error);
    }
    var keyLen := |d.value.key| % (MAX_UINT32 + 1);
    var candidate := idKey(plaintext, d.value.salt, d.value.time, d.value.memory, d.value.threads, keyLen);
    if candidate != d.value.key {
      return Err(Mismatch);
    }
    return Ok(());
  }

  // ----- the round trip -----

  /** Text that a scan of a number stops at. */
  predicate NoDigitFirst(more: string) {
    more == "" || !IsDigit(more[0])
  }

  lemma VersionScans(version: nat, more: string)
    requires version <= MAX_INT64 && NoDigitFirst(more)
    ensures ScanVersion(VersionPart(version, more)) == Some(version)
  {
    ScanLiteralPrefix("v=", Print(version) + more);
    ScanPrinted(version, version, more);
  }

  lemma FieldScans(literal: string, n: nat, max: nat, more: string)
    requires n <= max && NoDigitFirst(more)
    ensures ScanField(literal + (Print(n) + more), literal, max) == Some(Scanned(n, more))
  {
    ScanLiteralPrefix(literal, Print(n) + more);
    ScanPrinted(n, max, more);
  }

  lemma CostScans(d: Decoded, more: string)
    requires Fits(d) && NoDigitFirst(more)
    ensures ScanCost(CostPart(d, more)) == Some((d.memory, d.time, d.threads))
  {
    var tail := ",p=" + (Print(d.threads) + more);
    var mid := ",t=" + (Print(d.time) + tail);
    assert NoDigitFirst(tail) && NoDigitFirst(mid);
    FieldScans("m=", d.memory, MAX_UINT32, mid);
    FieldScans(",t=", d.time, MAX_UINT32, tail);
    FieldScans(",p=", d.threads, MAX_UINT8, more);
    hide ScanField, Print, NoDigitFirst;
  }

  lemma PartsHaveNoDollar(version: nat, d: Decoded, more: string)
    requires '$' !in more
    ensures forall p | p in Parts(version, d, more) :: '$' !in p
  {
    RawRoundTrip(d.salt);
    RawRoundTrip(d.key);
    assert '$' !in VersionPart(version, more) && '$' !in CostPart(d, more);
  }

  /** What Decode makes of a printed hash, possibly with text added after the
      version and after the last cost. */
  lemma DecodeOfParts(version: nat, d: Decoded, more: string)
    requires Fits(d) && version <= MAX_INT64 && '$' !in more && NoDigitFirst(more)
    ensures Decode(Join(Parts(version, d, more), '$'))
            == if version == VERSION then Ok(d) else Err(IncompatibleVersion)
  {
    RawRoundTrip(d.salt);
    RawRoundTrip(d.key);
    PartsHaveNoDollar(version, d, more);
    SplitJoin(Parts(version, d, more), '$');
    VersionScans(version, more);
    CostScans(d, more);
    hide Split, Join, ScanVersion, ScanCost, DecodeRaw, EncodeRaw, VersionPart, CostPart;
  }

  lemma CostDoesNotScan(d: Decoded)
    requires !Fits(d)
    ensures ScanCost(CostPart(d, "")) == None
  {
    var last := ",p=" + (Print(d.threads) + "");
    var mid := ",t=" + (Print(d.time) + last);
    assert NoDigitFirst(last) && NoDigitFirst(mid);
    ScanLiteralPrefix("m=", Print(d.memory) + mid);
    if d.memory > MAX_UINT32 {
      ScanTooLarge(d.memory, MAX_UINT32, mid);
    } else {
      FieldScans("m=", d.memory, MAX_UINT32, mid);
      ScanLiteralPrefix(",t=", Print(d.time) + last);
      if d.time > MAX_UINT32 {
        ScanTooLarge(d.time, MAX_UINT32, last);
      } else {
        FieldScans(",t=", d.time, MAX_UINT32, last);
        ScanLiteralPrefix(",p=", Print(d.threads) + "");
        ScanTooLarge(d.threads, MAX_UINT8, "");
      }
    }
    hide Print, NoDigitFirst;
  }

  lemma DecodeOfUnfit(d: Decoded)
    requires !Fits(d)
    ensures Decode(Format(VERSION, d)) == Err(InvalidHash)
  {
    PartsHaveNoDollar(VERSION, d, "");
    SplitJoin(Parts(VERSION, d, ""), '$');
    VersionScans(VERSION, "");
    CostDoesNotScan(d);
    hide Split, Join, ScanVersion, ScanCost, DecodeRaw, EncodeRaw, VersionPart, CostPart, Fits;
  }

  /** Parsing undoes printing: Decode gives back exactly what Format was given, for all
      byte strings, if the costs fit their fields, which are 32 bits wide and
      for the threads 8; a hash of any other version is told apart, and costs that do not
      fit make no hash. */
  lemma PhcRoundTrip(version: nat, d: Decoded)
    requires version <= MAX_INT64
    ensures
      var fit := d.memory < 0x1_0000_0000 && d.time < 0x1_0000_0000 && d.threads < 0x100;
      && (version == 19 ==> Decode(Format(version, d)) == if fit then Ok(d) else Err(InvalidHash))
      && (version != 19 && fit ==> Decode(Format(version, d)) == Err(IncompatibleVersion))
  {
    hide Decode, Format;
    if Fits(d) {
      FormatIsJoin(version, d);
      DecodeOfParts(version, d, "");
    } else {
      DecodeOfUnfit(d);
    }
  }

  lemma FormatIsJoin(version: nat, d: Decoded)
    ensures Format(version, d) == Join(Parts(version, d, ""), '$')
  {
  }

  /** Whatever Decode accepts is six fields between dollar signs: anything, the algorithm's
      name, a version, costs, and the base 64 of salt and key. */
  lemma DecodedIs(encoded: string)
    requires Decode(encoded).Ok?
    ensures
      exists head: string, version: string, costs: string, salt: string, key: string ::
        && encoded == Join([head, "argon2id", version, costs, salt, key], '$')
        && "v=" <= version && "m=" <= costs
        && DecodeRaw(salt) == Some(Decode(encoded).value.salt) && DecodeRaw(key) == Some(Decode(encoded).value.key)
  {
    var parts := Split(encoded, '$');
    JoinSplit(encoded, '$');
    DecodedParts(encoded);
    hide Join, Split, DecodeRaw, Decode;
    assert parts == [parts[0], "argon2id", parts[2], parts[3], parts[4], parts[5]];
  }

  lemma DecodedParts(encoded: string)
    requires Decode(encoded).Ok?
    ensures
      var parts := Split(encoded, '$');
      && |parts| == 6 && parts[1] == "argon2id" && "v=" <= parts[2] && "m=" <= parts[3]
      && DecodeRaw(parts[4]) == Some(Decode(encoded).value.salt)
      && DecodeRaw(parts[5]) == Some(Decode(encoded).value.key)
  {
    hide Split, DecodeRaw, ScanInt, ScanUint;
  }

  lemma VersionDollars(version: nat, more: string)
    requires '$' in more
    ensures Occurrences(VersionPart(version, more), '$') > 0
  {
    hide Occurrences;
    OccurrencesConcat("v=" + Print(version), more, '$');
    OccursIfIn(more, '$');
    assert VersionPart(version, more) == "v=" + Print(version) + more;
  }

  lemma DollarMakesParts(version: nat, d: Decoded, more: string)
    requires '$' in more
    ensures |Split(Join(Parts(version, d, more), '$'), '$')| > 6
  {
    hide Split, Join, Occurrences, TotalOccurrences, VersionPart, CostPart, EncodeRaw;
    var parts := Parts(version, d, more);
    SplitLength(Join(parts, '$'), '$');
    JoinOccurrences(parts, '$');
    PartOfTotal(parts, 2, '$');
    VersionDollars(version, more);
  }

  lemma DigitChangesVersion(d: Decoded, more: string)
    requires '$' !in more && !NoDigitFirst(more)
    ensures Decode(Join(Parts(VERSION, d, more), '$')).Err?
  {
    PartsHaveNoDollar(VERSION, d, more);
    SplitJoin(Parts(VERSION, d, more), '$');
    ScanLiteralPrefix("v=", Print(VERSION) + more);
    ScanReadsOn(VERSION, more);
    hide Split, Join, ScanInt, ScanLiteral, ScanCost, DecodeRaw, EncodeRaw, CostPart;
  }

  /** Decode is laxer than Hash: it also accepts strings that Hash never prints, with text
      after the numbers. Exactly which text: none with a '$', and none that starts with
      a digit. */
  lemma DecodeIgnoresTrailingText(d: Decoded, more: string)
    requires Fits(d)
    ensures Decode(Join(Parts(VERSION, d, more), '$')) == Ok(d) <==> '$' !in more && NoDigitFirst(more)
  {
    hide Decode, Join, NoDigitFirst;
    if '$' in more {
      DollarMakesParts(VERSION, d, more);
      SixParts(Join(Parts(VERSION, d, more), '$'));
    } else if NoDigitFirst(more) {
      DecodeOfParts(VERSION, d, more);
    } else {
      DigitChangesVersion(d, more);
    }
  }

  lemma SixParts(encoded: string)
    ensures Decode(encoded).Ok? ==> |Split(encoded, '$')| == 6
  {
  }

  /** Two parameter sets never print alike. */
  lemma PhcInjective(d: Decoded, e: Decoded)
    requires Fits(d) && Fits(e) && Format(VERSION, d) == Format(VERSION, e)
    ensures d == e
  {
    PhcRoundTrip(VERSION, d);
    PhcRoundTrip(VERSION, e);
  }

  /** Verify accepts a password against the hash of another exactly when argon2
      gives both the same key under that hash's salt; in particular it always
      accepts the password that was hashed. */
  method HashThenVerify(idKey: IDKey, plaintext: string, salt: seq<Byte>, candidate: string) returns (ok: bool)
    requires plaintext != "" && |salt| == SALT_LEN
    requires forall p: string, s: seq<Byte> :: |idKey(p, s, TIME, MEMORY, THREADS, KEY_LEN)| == KEY_LEN
    ensures ok <==> idKey(candidate, salt, TIME, MEMORY, THREADS, KEY_LEN)
                    == idKey(plaintext, salt, TIME, MEMORY, THREADS, KEY_LEN)
    ensures candidate == plaintext ==> ok
  {
    hide Format, Decode;
    ghost var d := Decoded(MEMORY, TIME, THREADS, salt, idKey(plaintext, salt, TIME, MEMORY, THREADS, KEY_LEN));
    PhcRoundTrip(VERSION, d);
    var encoded := Hash(idKey, plaintext, salt, false);
    var r := Verify(idKey, candidate, encoded.value);
    ok := r.Ok?;
  }
}
