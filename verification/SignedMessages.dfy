/**
 * The messages an identity key signs to authorise a request, and the bytes a
 * statement claim is keyed on (src/signed_message.rs, src/routes/signed.rs,
 * src/routes/account.rs).
 *
 * Each constructor of `Message` is one wire shape with fields of a known
 * alphabet. `Encode` builds the bytes that are signed and `Decode` reads them
 * back. A `Candidate` is a message together with the route that accepts it: the
 * versioned messages belong to one route each, but some pre-v2 messages are
 * accepted by several routes, and `SharedExactly` and `RoutesShareExactly` say
 * which.
 */
module SignedMessages {
  import opened Text
  import opened Limits

  const LF := '\n'
  const NUL := '\U{0}'

  datatype ModeWord = Enhanced | Anon

  function ModeText(mode: ModeWord): string {
    if mode.Enhanced? then "enhanced" else "anon"
  }

  datatype Message =
    | RegisterV2(domain: string, username: string, descriptionHash: string, timestamp: nat)
    | UnregisterV2(domain: string, username: string, timestamp: nat)
    | RecoverV2(domain: string, pubkey: string, timestamp: nat)
    | MetadataV2(domain: string, pubkey: string, timestamp: nat)
    | AvailableV2(domain: string, pubkey: string, username: string, timestamp: nat)
    | TransferFromV2(domain: string, username: string, source: string, target: string, timestamp: nat)
    | TransferToV2(domain: string, username: string, source: string, target: string, descriptionHash: string,
                   timestamp: nat)
    | BlinkRecover(domain: string, pubkey: string, timestamp: nat)
    | BlinkMode(domain: string, pubkey: string, mode: ModeWord, timestamp: nat)
    | LegacyUsername(username: string, timestamp: nat)
    | LegacyPubkey(pubkey: string, timestamp: nat)
    | LegacyMode(mode: ModeWord, pubkey: string, timestamp: nat)

  predicate IsHex(c: char) {
    IsDigit(c) || 'a' <= c <= 'f' || 'A' <= c <= 'F'
  }

  predicate IsUsernameChar(c: char) {
    'a' <= c <= 'z' || IsDigit(c) || c == '_'
  }

  /** A canonical username: the alphabet and the length bounds of `matches_blink_username_regex`. */
  predicate LegalUsername(s: string) {
    3 <= |s| <= 50 && forall i :: 0 <= i < |s| ==> IsUsernameChar(s[i])
  }

  /** The hex of a compressed (33-byte) or uncompressed (65-byte) key. */
  ghost predicate LegalPubkey(s: string) {
    |s| in {66, 130} && forall i :: 0 <= i < |s| ==> IsHex(s[i])
  }

  /** A `Host` value carries neither LF nor NUL. */
  ghost predicate LegalDomain(s: string) {
    Without(s, LF) && Without(s, NUL)
  }

  ghost predicate LegalHash(s: string) {
    |s| == 64 && forall i :: 0 <= i < |s| ==> IsHex(s[i])
  }

  ghost predicate Legal(m: Message) {
    && m.timestamp <= U64_MAX
    && match m {
         case RegisterV2(d, u, h, _) => LegalDomain(d) && LegalUsername(u) && LegalHash(h)
         case UnregisterV2(d, u, _) => LegalDomain(d) && LegalUsername(u)
         case RecoverV2(d, p, _) => LegalDomain(d) && LegalPubkey(p)
         case MetadataV2(d, p, _) => LegalDomain(d) && LegalPubkey(p)
         case AvailableV2(d, p, u, _) => LegalDomain(d) && LegalPubkey(p) && LegalUsername(u)
         case TransferFromV2(d, u, a, b, _) => LegalDomain(d) && LegalUsername(u) && LegalPubkey(a) && LegalPubkey(b)
         case TransferToV2(d, u, a, b, h, _) =>
           LegalDomain(d) && LegalUsername(u) && LegalPubkey(a) && LegalPubkey(b) && LegalHash(h)
         case BlinkRecover(d, p, _) => LegalDomain(d) && LegalPubkey(p)
         case BlinkMode(d, p, _, _) => LegalDomain(d) && LegalPubkey(p)
         case LegacyUsername(u, _) => LegalUsername(u)
         case LegacyPubkey(p, _) => LegalPubkey(p)
         case LegacyMode(_, p, _) => LegalPubkey(p)
       }
  }

  const BREEZ := "breez-lnurl:v2"
  const BLINK := "blink-lnurl:v1"

  /** The LF-joined fields of a versioned message; legacy messages have none. */
  function Fields(m: Message): seq<string> {
    var t := Decimal(m.timestamp);
    match m {
      case RegisterV2(d, u, h, _) => [BREEZ, "register", d, u, h, t]
      case UnregisterV2(d, u, _) => [BREEZ, "unregister", d, u, t]
      case RecoverV2(d, p, _) => [BREEZ, "recover", d, p, t]
      case MetadataV2(d, p, _) => [BREEZ, "metadata", d, p, t]
      case AvailableV2(d, p, u, _) => [BREEZ, "available", d, p, u, t]
      case TransferFromV2(d, u, a, b, _) => [BREEZ, "transfer-from", d, u, a, b, t]
      case TransferToV2(d, u, a, b, h, _) => [BREEZ, "transfer-to", d, u, a, b, h, t]
      case BlinkRecover(d, p, _) => [BLINK, "recover", d, p, t]
      case BlinkMode(d, p, mode, _) => [BLINK, "mode", d, p, ModeText(mode), t]
      case _ => []
    }
  }

  predicate IsLegacy(m: Message) {
    m.LegacyUsername? || m.LegacyPubkey? || m.LegacyMode?
  }

  /** What a pre-v2 message puts before its `-{timestamp}`. */
  function LegacyBody(m: Message): string
    requires IsLegacy(m)
  {
    match m {
      case LegacyUsername(u, _) => u
      case LegacyPubkey(p, _) => p
      case LegacyMode(mode, p, _) => "mode:" + ModeText(mode) + ":" + p
    }
  }

  function Encode(m: Message): string {
    if IsLegacy(m) then LegacyBody(m) + ['-'] + Decimal(m.timestamp) else Join(Fields(m), LF)
  }

  function ParseTimestamp(s: string): Option<nat> {
    if s != "" && forall i :: 0 <= i < |s| ==> IsDigit(s[i]) then Some(DigitsValue(s)) else None
  }

  function ParseMode(s: string): Option<ModeWord> {
    if s == "enhanced" then Some(Enhanced) else if s == "anon" then Some(Anon) else None
  }

  function DecodeFields(f: seq<string>): Option<Message>
    requires |f| > 0
  {
    match ParseTimestamp(f[|f| - 1]) {
      case None => None
      case Some(t) =>
        if |f| < 5 then None
        else if f[0] == BREEZ then
          if |f| == 6 && f[1] == "register" then Some(RegisterV2(f[2], f[3], f[4], t))
          else if |f| == 5 && f[1] == "unregister" then Some(UnregisterV2(f[2], f[3], t))
          else if |f| == 5 && f[1] == "recover" then Some(RecoverV2(f[2], f[3], t))
          else if |f| == 5 && f[1] == "metadata" then Some(MetadataV2(f[2], f[3], t))
          else if |f| == 6 && f[1] == "available" then Some(AvailableV2(f[2], f[3], f[4], t))
          else if |f| == 7 && f[1] == "transfer-from" then Some(TransferFromV2(f[2], f[3], f[4], f[5], t))
          else if |f| == 8 && f[1] == "transfer-to" then Some(TransferToV2(f[2], f[3], f[4], f[5], f[6], t))
          else None
        else if f[0] == BLINK then
          if |f| == 5 && f[1] == "recover" then Some(BlinkRecover(f[2], f[3], t))
          else if |f| == 6 && f[1] == "mode" then
            match ParseMode(f[4]) {
              case None => None
              case Some(mode) => Some(BlinkMode(f[2], f[3], mode, t))
            }
          else None
        else None
    }
  }

  function DecodeLegacy(body: string, t: nat): Option<Message> {
    if |body| > 5 && body[..5] == "mode:" then
      var parts := Split(body, ':');
      if |parts| != 3 then None
      else match ParseMode(parts[1]) {
             case None => None
             case Some(mode) => Some(LegacyMode(mode, parts[2], t))
           }
    else if |body| <= 50 then Some(LegacyUsername(body, t))
    else Some(LegacyPubkey(body, t))
  }

  function Decode(s: string): Option<Message> {
    var f := Split(s, LF);
    if |f| > 1 then DecodeFields(f)
    else match LastIndex(s, '-') {
           case None => None
           case Some(i) => match ParseTimestamp(s[i + 1..]) {
             case None => None
             case Some(t) => DecodeLegacy(s[..i], t)
           }
         }
  }

  lemma HexIsLineFree(s: string)
    requires forall i :: 0 <= i < |s| ==> IsHex(s[i])
    ensures Without(s, LF)
  {
  }

  lemma UsernameIsLineFree(s: string)
    requires LegalUsername(s)
    ensures Without(s, LF)
  {
  }

  lemma WordsAreLineFree()
    ensures Without(BREEZ, LF) && Without(BLINK, LF) && Without("register", LF) && Without("unregister", LF)
    ensures Without("recover", LF) && Without("metadata", LF) && Without("available", LF) && Without("mode", LF)
    ensures Without("transfer-from", LF) && Without("transfer-to", LF) && Without("enhanced", LF) && Without("anon", LF)
  {
  }

  lemma FieldsAreLineFree(m: Message)
    requires Legal(m) && !IsLegacy(m)
    ensures forall i :: 0 <= i < |Fields(m)| ==> Without(Fields(m)[i], LF)
  {
    WordsAreLineFree();
    assert Without(Decimal(m.timestamp), LF);
    match m {
      case RegisterV2(d, u, h, _) => UsernameIsLineFree(u); HexIsLineFree(h);
      case UnregisterV2(d, u, _) => UsernameIsLineFree(u);
      case RecoverV2(d, p, _) => HexIsLineFree(p);
      case MetadataV2(d, p, _) => HexIsLineFree(p);
      case AvailableV2(d, p, u, _) => HexIsLineFree(p); UsernameIsLineFree(u);
      case TransferFromV2(d, u, a, b, _) => UsernameIsLineFree(u); HexIsLineFree(a); HexIsLineFree(b);
      case TransferToV2(d, u, a, b, h, _) => UsernameIsLineFree(u); HexIsLineFree(a); HexIsLineFree(b);
        HexIsLineFree(h);
      case BlinkRecover(d, p, _) => HexIsLineFree(p);
      case BlinkMode(d, p, mode, _) => HexIsLineFree(p);
    }
  }

  lemma DecodeFieldsOf(m: Message)
    requires !IsLegacy(m)
    ensures DecodeFields(Fields(m)) == Some(m)
  {
    DecimalValue(m.timestamp);
    assert Fields(m)[|Fields(m)| - 1] == Decimal(m.timestamp);
  }

  lemma DecodeLegacyBody(m: Message)
    requires Legal(m) && IsLegacy(m)
    ensures DecodeLegacy(LegacyBody(m), m.timestamp) == Some(m)
  {
    match m {
      case LegacyUsername(u, _) =>
        assert |u| > 5 ==> u[..5][4] == u[4] && IsUsernameChar(u[4]);
      case LegacyPubkey(p, _) =>
        assert p[..5][0] == p[0] && IsHex(p[0]);
      case LegacyMode(mode, p, t) => DecodeLegacyMode(mode, p, t);
    }
  }

  lemma SplitThree(a: string, b: string, c: string, sep: char)
    requires Without(a, sep) && Without(b, sep) && Without(c, sep)
    ensures Split(a + [sep] + b + [sep] + c, sep) == [a, b, c]
  {
    SplitPlain(c, sep);
    SplitField(b, sep, c);
    SplitField(a, sep, b + [sep] + c);
    assert a + [sep] + b + [sep] + c == a + [sep] + (b + [sep] + c);
  }

  lemma DecodeLegacyMode(mode: ModeWord, pubkey: string, t: nat)
    requires LegalPubkey(pubkey)
    ensures DecodeLegacy("mode:" + ModeText(mode) + ":" + pubkey, t) == Some(LegacyMode(mode, pubkey, t))
  {
    var word := ModeText(mode);
    var body := "mode:" + word + ":" + pubkey;
    assert Without(pubkey, ':') && Without("mode", ':') && Without(word, ':');
    SplitThree("mode", word, pubkey, ':');
    assert body == "mode" + [':'] + word + [':'] + pubkey;
    assert body[..5] == "mode:";
  }

  lemma DecodeLegacyMessage(body: string, timestamp: nat)
    requires Without(body, LF)
    ensures Decode(body + ['-'] + Decimal(timestamp)) == DecodeLegacy(body, timestamp)
  {
    var stamp := Decimal(timestamp);
    var s := body + ['-'] + stamp;
    DecimalValue(timestamp);
    assert Without(s, LF);
    SplitPlain(s, LF);
    LastIndexOfTail(body, '-', stamp);
    assert s[|body| + 1..] == stamp && s[..|body|] == body;
  }

  /** Every legal message is read back exactly, whichever route and format it is for. */
  lemma DecodeEncode(m: Message)
    requires Legal(m)
    ensures Decode(Encode(m)) == Some(m)
  {
    if IsLegacy(m) {
      DecodeLegacyMessage(LegacyBody(m), m.timestamp);
      DecodeLegacyBody(m);
    } else {
      FieldsAreLineFree(m);
      SplitJoin(Fields(m), LF);
      DecodeFieldsOf(m);
    }
  }

  /** Two messages with equal bytes are the same message; which routes accept it is another question. */
  lemma EncodeInjective(m: Message, n: Message)
    requires Legal(m) && Legal(n)
    requires Encode(m) == Encode(n)
    ensures m == n
  {
    DecodeEncode(m);
    DecodeEncode(n);
  }

  /** A field and the lines after it. */
  function Line(field: string, rest: string): string {
    field + "\n" + rest
  }

  function WordFor(mode: ModeWord): string {
    match mode { case Anon => "anon" case Enhanced => "enhanced" }
  }

  lemma {:induction false} JoinIsLines(fields: seq<string>)
    requires |fields| > 1
    ensures Join(fields, LF) == Line(fields[0], Join(fields[1..], LF))
  {
  }

  /** The fields of every message in the order and spelling that deployed clients sign. */
  lemma WireShapes(d: string, p: string, u: string, h: string, t: nat)
    ensures Encode(RegisterV2(d, u, h, t))
            == Line("breez-lnurl:v2", Line("register", Line(d, Line(u, Line(h, Decimal(t))))))
    ensures Encode(UnregisterV2(d, u, t)) == Line("breez-lnurl:v2", Line("unregister", Line(d, Line(u, Decimal(t)))))
    ensures Encode(RecoverV2(d, p, t)) == Line("breez-lnurl:v2", Line("recover", Line(d, Line(p, Decimal(t)))))
    ensures Encode(MetadataV2(d, p, t)) == Line("breez-lnurl:v2", Line("metadata", Line(d, Line(p, Decimal(t)))))
    ensures Encode(AvailableV2(d, p, u, t))
            == Line("breez-lnurl:v2", Line("available", Line(d, Line(p, Line(u, Decimal(t))))))
    ensures Encode(BlinkRecover(d, p, t)) == Line("blink-lnurl:v1", Line("recover", Line(d, Line(p, Decimal(t)))))
  {
    FiveLines(BREEZ, "unregister", d, u, Decimal(t));
    FiveLines(BREEZ, "recover", d, p, Decimal(t));
    FiveLines(BREEZ, "metadata", d, p, Decimal(t));
    FiveLines(BLINK, "recover", d, p, Decimal(t));
    SixLines(BREEZ, "register", d, u, h, Decimal(t));
    SixLines(BREEZ, "available", d, p, u, Decimal(t));
  }

  /** Mode requests, both halves of a transfer, and the pre-v2 messages. */
  lemma WireShapesOfTwo(d: string, p: string, q: string, u: string, h: string, mode: ModeWord, t: nat)
    ensures Encode(BlinkMode(d, p, mode, t))
            == Line("blink-lnurl:v1", Line("mode", Line(d, Line(p, Line(WordFor(mode), Decimal(t))))))
    ensures Encode(TransferFromV2(d, u, p, q, t))
            == Line("breez-lnurl:v2", Line("transfer-from", Line(d, Line(u, Line(p, Line(q, Decimal(t)))))))
    ensures Encode(TransferToV2(d, u, p, q, h, t))
            == Line("breez-lnurl:v2", Line("transfer-to", Line(d, Line(u, Line(p, Line(q, Line(h, Decimal(t))))))))
    ensures Encode(LegacyUsername(u, t)) == u + "-" + Decimal(t) && Encode(LegacyPubkey(p, t)) == p + "-" + Decimal(t)
    ensures Encode(LegacyMode(mode, p, t)) == "mode:" + WordFor(mode) + ":" + p + "-" + Decimal(t)
  {
    SixLines(BLINK, "mode", d, p, ModeText(mode), Decimal(t));
    JoinIsLines([BREEZ, "transfer-from", d, u, p, q, Decimal(t)]);
    assert [BREEZ, "transfer-from", d, u, p, q, Decimal(t)][1..] == ["transfer-from", d, u, p, q, Decimal(t)];
    SixLines("transfer-from", d, u, p, q, Decimal(t));
    JoinIsLines([BREEZ, "transfer-to", d, u, p, q, h, Decimal(t)]);
    assert [BREEZ, "transfer-to", d, u, p, q, h, Decimal(t)][1..] == ["transfer-to", d, u, p, q, h, Decimal(t)];
    JoinIsLines(["transfer-to", d, u, p, q, h, Decimal(t)]);
    assert ["transfer-to", d, u, p, q, h, Decimal(t)][1..] == [d, u, p, q, h, Decimal(t)];
    SixLines(d, u, p, q, h, Decimal(t));
  }

  lemma FiveLines(a: string, b: string, c: string, d: string, e: string)
    ensures Join([a, b, c, d, e], LF) == Line(a, Line(b, Line(c, Line(d, e))))
  {
    JoinIsLines([a, b, c, d, e]);
    assert [a, b, c, d, e][1..] == [b, c, d, e];
    JoinIsLines([b, c, d, e]);
    assert [b, c, d, e][1..] == [c, d, e];
    JoinIsLines([c, d, e]);
    assert [c, d, e][1..] == [d, e];
    JoinIsLines([d, e]);
    assert [d, e][1..] == [e];
  }

  lemma SixLines(a: string, b: string, c: string, d: string, e: string, f: string)
    ensures Join([a, b, c, d, e, f], LF) == Line(a, Line(b, Line(c, Line(d, Line(e, f)))))
  {
    JoinIsLines([a, b, c, d, e, f]);
    assert [a, b, c, d, e, f][1..] == [b, c, d, e, f];
    FiveLines(b, c, d, e, f);
  }

  // ----- the routes that accept a message -----

  datatype Route =
    | Available | Register | Unregister | Transfer | Recover | Metadata | Mode
    | ZapReceipt | InvoicePaid | InvoicesPaid

  /** Two routes verify a pre-v2 signature over a text of the request. */
  datatype Content = Shaped(message: Message) | FreeText(text: string, timestamp: nat)

  datatype Candidate = Candidate(route: Route, content: Content)

  /**
   * The route lists the message among those its signature may cover, and acts on
   * the request. A preimage must be hex; a receipt must be a JSON event, of which
   * the results use only that its text holds a brace.
   */
  ghost predicate Listed(c: Candidate) {
    match c.content {
      case FreeText(s, t) =>
        t <= U64_MAX && ((c.route.InvoicePaid? && DecodeHex(s).Some?) || (c.route.ZapReceipt? && '{' in s))
      case Shaped(m) =>
        && Legal(m)
        && match c.route {
             case Available => m.AvailableV2?
             case Register => m.RegisterV2? || m.LegacyUsername?
             case Unregister => m.UnregisterV2?
             case Transfer => m.TransferFromV2? || m.TransferToV2?
             case Recover => m.RecoverV2? || m.BlinkRecover? || m.LegacyPubkey?
             case Metadata => m.MetadataV2? || m.LegacyPubkey?
             case Mode => m.BlinkMode? || m.LegacyMode?
             case InvoicesPaid => m.LegacyPubkey?
             case _ => false
           }
    }
  }

  predicate TakesPubkey(r: Route) {
    r.Recover? || r.Metadata? || r.InvoicesPaid?
  }

  predicate PreV2(c: Content) {
    c.FreeText? || IsLegacy(c.message)
  }

  function Body(c: Content): string
    requires PreV2(c)
  {
    if c.FreeText? then c.text else LegacyBody(c.message)
  }

  function Stamp(c: Content): nat {
    if c.FreeText? then c.timestamp else c.message.timestamp
  }

  /** The bytes the signature covers. */
  function SignedBytes(c: Content): string {
    if c.FreeText? then c.text + ['-'] + Decimal(c.timestamp) else Encode(c.message)
  }

  lemma PreV2Bytes(c: Content)
    requires PreV2(c)
    ensures SignedBytes(c) == Body(c) + ['-'] + Decimal(Stamp(c))
  {
  }

  /** A pre-v2 message has one body and one timestamp, whatever the body holds. */
  lemma PreV2Splits(a: string, t: nat, b: string, u: nat)
    requires a + ['-'] + Decimal(t) == b + ['-'] + Decimal(u)
    ensures a == b && t == u
  {
    LastIndexOfTail(a, '-', Decimal(t));
    LastIndexOfTail(b, '-', Decimal(u));
    var s := a + ['-'] + Decimal(t);
    assert s[..|a|] == a && s[|a| + 1..] == Decimal(t);
    var r := b + ['-'] + Decimal(u);
    assert r[..|b|] == b && r[|b| + 1..] == Decimal(u);
    DecimalValue(t);
    DecimalValue(u);
  }

  /** Numerals after different separators: the texts differ. */
  lemma DifferentSeparators(a: string, x: char, d: string, b: string, y: char, e: string)
    requires x != y && !IsDigit(x) && !IsDigit(y)
    requires forall i :: 0 <= i < |d| ==> IsDigit(d[i])
    requires forall i :: 0 <= i < |e| ==> IsDigit(e[i])
    ensures a + [x] + d != b + [y] + e
  {
    var s, r := a + [x] + d, b + [y] + e;
    assert s[|a|] == x && r[|b|] == y;
    assert forall i :: |a| < i < |s| ==> s[i] == d[i - |a| - 1] && IsDigit(s[i]);
    assert forall i :: |b| < i < |r| ==> r[i] == e[i - |b| - 1] && IsDigit(r[i]);
  }

  /** No versioned message is also a pre-v2 one, whatever text stands before the timestamp. */
  lemma VersionedIsNotPreV2(m: Message, body: string, t: nat)
    requires !IsLegacy(m)
    ensures Encode(m) != body + ['-'] + Decimal(t)
  {
    var f := Fields(m);
    var n := |f| - 1;
    JoinSnoc(f, LF);
    assert f[n] == Decimal(m.timestamp);
    DifferentSeparators(Join(f[..n], LF), LF, f[n], body, '-', Decimal(t));
  }

  /**
   * Two listed candidates are authorised by one signature exactly when they are
   * the same candidate, or both are pre-v2 with the same body and timestamp.
   */
  lemma SharedExactly(a: Candidate, b: Candidate)
    requires Listed(a) && Listed(b)
    ensures SignedBytes(a.content) == SignedBytes(b.content) <==>
              a == b || (PreV2(a.content) && PreV2(b.content) && Body(a.content) == Body(b.content)
                         && Stamp(a.content) == Stamp(b.content))
  {
    var x, y := a.content, b.content;
    if PreV2(x) { PreV2Bytes(x); }
    if PreV2(y) { PreV2Bytes(y); }
    if SignedBytes(x) == SignedBytes(y) {
      if PreV2(x) && PreV2(y) {
        PreV2Splits(Body(x), Stamp(x), Body(y), Stamp(y));
      } else if PreV2(x) {
        VersionedIsNotPreV2(y.message, Body(x), Stamp(x));
      } else if PreV2(y) {
        VersionedIsNotPreV2(x.message, Body(y), Stamp(y));
      } else {
        EncodeInjective(x.message, y.message);
      }
    }
  }

  /** Some signature is accepted by both routes. */
  ghost predicate Share(r: Route, s: Route) {
    exists c, d :: Listed(Candidate(r, c)) && Listed(Candidate(s, d)) && SignedBytes(c) == SignedBytes(d)
  }

  /** Any two of recover, metadata and invoices-paid; or invoice-paid with one of them or with register. */
  predicate Overlap(r: Route, s: Route) {
    || (TakesPubkey(r) && TakesPubkey(s))
    || (r.InvoicePaid? && (s.Register? || TakesPubkey(s)))
    || (s.InvoicePaid? && (r.Register? || TakesPubkey(r)))
  }

  /** The shape of a pre-v2 message tells the route, except for the bare pubkey. */
  lemma SharedMessage(m: Message, r: Route, s: Route)
    requires Listed(Candidate(r, Shaped(m))) && Listed(Candidate(s, Shaped(m))) && r != s
    ensures TakesPubkey(r) && TakesPubkey(s)
  {
  }

  lemma HexHasNoBrace(s: string)
    requires DecodeHex(s).Some?
    ensures '{' !in s && ':' !in s
  {
    DecodesExactly(s);
  }

  /** No legal pre-v2 message is a JSON event, and a mode message is not hex. */
  lemma BodyHasNoBrace(m: Message)
    requires Legal(m) && IsLegacy(m)
    ensures '{' !in LegacyBody(m)
    ensures m.LegacyMode? ==> ':' in LegacyBody(m)
  {
    match m {
      case LegacyUsername(u, _) => assert forall i :: 0 <= i < |u| ==> IsUsernameChar(u[i]);
      case LegacyPubkey(p, _) => assert forall i :: 0 <= i < |p| ==> IsHex(p[i]);
      case LegacyMode(mode, p, _) =>
        assert forall i :: 0 <= i < |p| ==> IsHex(p[i]);
        assert LegacyBody(m)[4] == ':';
        assert '{' !in "mode:" + ModeText(mode) + ":";
    }
  }

  /** A text shared with a shaped message is the preimage field of invoice-paid, never of a mode request. */
  lemma SharedText(r: Route, c: Content, s: Route, m: Message)
    requires c.FreeText? && IsLegacy(m) && Listed(Candidate(r, c)) && Listed(Candidate(s, Shaped(m)))
    requires c.text == LegacyBody(m)
    ensures r.InvoicePaid? && (s.Register? || TakesPubkey(s))
  {
    BodyHasNoBrace(m);
    if r.InvoicePaid? { HexHasNoBrace(c.text); }
  }

  lemma SharedRoutes(r: Route, c: Content, s: Route, d: Content)
    requires r != s && Listed(Candidate(r, c)) && Listed(Candidate(s, d)) && SignedBytes(c) == SignedBytes(d)
    ensures Overlap(r, s)
  {
    SharedExactly(Candidate(r, c), Candidate(s, d));
    if c.Shaped? && d.Shaped? {
      EncodeInjective(c.message, d.message);
      SharedMessage(c.message, r, s);
    } else if c.FreeText? && d.FreeText? {
      HexHasNoBrace(c.text);
    } else if c.FreeText? {
      SharedText(r, c, s, d.message);
    } else {
      SharedText(s, d, r, c.message);
    }
  }

  /** A pre-v2 message of a route that shares some, with a body that is hex. */
  function Sample(r: Route): Content
    requires r.InvoicePaid? || r.Register? || TakesPubkey(r)
  {
    if r.Register? then Shaped(LegacyUsername("abcdef", 0))
    else if r.InvoicePaid? then FreeText("", 0)
    else Shaped(LegacyPubkey(seq(66, _ => '0'), 0))
  }

  lemma SampleListed(r: Route)
    requires r.Register? || TakesPubkey(r)
    ensures Listed(Candidate(r, Sample(r))) && PreV2(Sample(r)) && DecodeHex(Body(Sample(r))).Some?
  {
    if r.Register? {
      DecodesExactly("abcdef");
    } else {
      PubkeyIsHex(Sample(r).message.pubkey);
    }
  }

  lemma PubkeyIsHex(p: string)
    requires LegalPubkey(p)
    ensures DecodeHex(p).Some?
  {
    DecodesExactly(p);
    assert forall i :: 0 <= i < |p| ==> IsHex(p[i]);
  }

  /** A pre-v2 message whose body is hex is also a report of that preimage. */
  lemma HexIsReported(c: Candidate)
    requires Listed(c) && PreV2(c.content) && DecodeHex(Body(c.content)).Some?
    ensures Listed(Candidate(InvoicePaid, FreeText(Body(c.content), Stamp(c.content))))
    ensures SignedBytes(FreeText(Body(c.content), Stamp(c.content))) == SignedBytes(c.content)
  {
    PreV2Bytes(c.content);
  }

  lemma OverlapShares(r: Route, s: Route) returns (c: Content, d: Content)
    requires r != s && Overlap(r, s)
    ensures Listed(Candidate(r, c)) && Listed(Candidate(s, d)) && SignedBytes(c) == SignedBytes(d)
  {
    c, d := Sample(r), Sample(s);
    if r.InvoicePaid? {
      SampleListed(s);
      HexIsReported(Candidate(s, d));
      c := FreeText(Body(d), Stamp(d));
    } else {
      SampleListed(r);
      if s.InvoicePaid? {
        HexIsReported(Candidate(r, c));
        d := FreeText(Body(c), Stamp(c));
      } else {
        SampleListed(s);
      }
    }
  }

  /** Exactly which two routes can be authorised by one signature. */
  lemma RoutesShareExactly(r: Route, s: Route)
    requires r != s
    ensures Share(r, s) <==> Overlap(r, s)
  {
    if Share(r, s) {
      var c, d :| Listed(Candidate(r, c)) && Listed(Candidate(s, d)) && SignedBytes(c) == SignedBytes(d);
      SharedRoutes(r, c, s, d);
    }
    if Overlap(r, s) {
      var c, d := OverlapShares(r, s);
    }
  }

  /** One signature over `abcdef-{timestamp}` registers a name and passes for the report of a three-byte preimage. */
  lemma RegistrationReportsPreimage(t: nat)
    requires t <= U64_MAX
    ensures var r := Candidate(Register, Shaped(LegacyUsername("abcdef", t)));
            var p := Candidate(InvoicePaid, FreeText("abcdef", t));
            Listed(r) && Listed(p) && r.route != p.route && SignedBytes(r.content) == SignedBytes(p.content)
  {
    DecodesExactly("abcdef");
    HexIsReported(Candidate(Register, Shaped(LegacyUsername("abcdef", t))));
  }

  /** No signature made for another route reports a preimage of the 32 bytes a Lightning preimage has. */
  lemma NoRealPreimageIsShared(text: string, t: nat, c: Candidate)
    requires Listed(Candidate(InvoicePaid, FreeText(text, t))) && Listed(c) && !c.route.InvoicePaid?
    requires SignedBytes(FreeText(text, t)) == SignedBytes(c.content)
    ensures DecodeHex(text).Some? && |DecodeHex(text).value| != 32
  {
    SharedExactly(Candidate(InvoicePaid, FreeText(text, t)), c);
    SharedRoutes(InvoicePaid, FreeText(text, t), c.route, c.content);
    DecodesExactly(text);
  }

  // ----- statement claims -----

  /** The bytes `statement_claim` hashes. */
  function StatementBytes(pubkey: string, domain: string, message: string): string {
    pubkey + [NUL] + domain + [NUL] + message
  }

  lemma {:induction false} FirstSeparator(a: string, x: string, b: string, y: string, sep: char)
    requires Without(a, sep) && Without(b, sep)
    requires a + [sep] + x == b + [sep] + y
    ensures a == b && x == y
  {
    var s, t := a + [sep] + x, b + [sep] + y;
    assert forall i :: 0 <= i < |a| ==> s[i] != sep;
    assert forall i :: 0 <= i < |b| ==> t[i] != sep;
    assert s[|a|] == sep && t[|b|] == sep;
    assert a == s[..|a|] && b == t[..|b|];
    assert x == s[|a| + 1..] && y == t[|b| + 1..];
  }

  /**
   * Equal claim keys mean the same signer, domain and message: no split of the
   * hashed bytes can be read two ways.
   */
  lemma StatementInjective(p: string, d: string, m: Message, p': string, d': string, m': Message)
    requires LegalPubkey(p) && LegalPubkey(p') && LegalDomain(d) && LegalDomain(d')
    requires Legal(m) && Legal(m')
    requires StatementBytes(p, d, Encode(m)) == StatementBytes(p', d', Encode(m'))
    ensures p == p' && d == d' && m == m'
  {
    StatementSplits(p, d, Encode(m), p', d', Encode(m'));
    EncodeInjective(m, m');
  }

  lemma StatementSplits(p: string, d: string, s: string, p': string, d': string, s': string)
    requires Without(p, NUL) && Without(p', NUL) && Without(d, NUL) && Without(d', NUL)
    requires StatementBytes(p, d, s) == StatementBytes(p', d', s')
    ensures p == p' && d == d' && s == s'
  {
    var x, y := d + [NUL] + s, d' + [NUL] + s';
    assert StatementBytes(p, d, s) == p + [NUL] + x;
    assert StatementBytes(p', d', s') == p' + [NUL] + y;
    FirstSeparator(p, x, p', y, NUL);
    FirstSeparator(d, s, d', s', NUL);
  }
}
