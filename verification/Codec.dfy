/** The Borsh encoding of order packets and the decoder that also accepts packets whose trailing
    optional fields were left off. */
module Codec {
  import opened Quantities
  import opened Matching
  import opened Packets

  type Byte = n: nat | n < 256

  // ---------- fields ----------

  /** A byte below a bound (a variant index or a bool), a little-endian integer, or an optional
      64-bit integer. */
  datatype Kind = SmallKind(bound: nat) | IntKind(width: nat) | OptKind

  datatype Field = Small(n: nat) | Int(i: nat) | Opt(o: Option<nat>)

  function Pow256(width: nat): (n: nat)
    ensures n > 0
  {
    if width == 0 then 1 else 256 * Pow256(width - 1)
  }

  predicate Fits(kind: Kind, f: Field) {
    match kind
    case SmallKind(bound) => f.Small? && f.n < bound && f.n < 256
    case IntKind(width) => f.Int? && f.i < Pow256(width)
    case OptKind => f.Opt? && (f.o.Some? ==> f.o.value < Pow256(8))
  }

  function LittleEndian(n: nat, width: nat): (b: seq<Byte>)
    ensures |b| == width
  {
    if width == 0 then [] else [n % 256] + LittleEndian(n / 256, width - 1)
  }

  function FromLittleEndian(b: seq<Byte>): nat {
    if b == [] then 0 else b[0] + 256 * FromLittleEndian(b[1..])
  }

  lemma {:induction false} LittleEndianRoundTrip(n: nat, width: nat)
    requires n < Pow256(width)
    ensures FromLittleEndian(LittleEndian(n, width)) == n
  {
    if width > 0 {
      LittleEndianRoundTrip(n / 256, width - 1);
      assert LittleEndian(n, width)[1..] == LittleEndian(n / 256, width - 1);
    }
  }

  lemma DigitSplit(digit: Byte, rest: nat)
    ensures (digit + 256 * rest) % 256 == digit && (digit + 256 * rest) / 256 == rest
  {
  }

  lemma {:induction false} FromLittleEndianRoundTrip(b: seq<Byte>)
    ensures FromLittleEndian(b) < Pow256(|b|)
    ensures LittleEndian(FromLittleEndian(b), |b|) == b
  {
    if b != [] {
      FromLittleEndianRoundTrip(b[1..]);
      var rest := FromLittleEndian(b[1..]);
      DigitSplit(b[0], rest);
      assert b == [b[0]] + b[1..];
    }
  }

  function EncodeField(kind: Kind, f: Field): seq<Byte>
    requires Fits(kind, f)
  {
    match kind
    case SmallKind(_) => [f.n]
    case IntKind(width) => LittleEndian(f.i, width)
    case OptKind => if f.o.None? then [0] else [1] + LittleEndian(f.o.value, 8)
  }

  function ParseField(kind: Kind, b: seq<Byte>): Option<(Field, seq<Byte>)> {
    match kind
    case SmallKind(bound) => if b != [] && b[0] < bound then Some((Small(b[0]), b[1..])) else None
    case IntKind(width) =>
      if |b| >= width then Some((Int(FromLittleEndian(b[..width])), b[width..])) else None
    case OptKind =>
      if b == [] then None
      else if b[0] == 0 then Some((Opt(None), b[1..]))
      else if b[0] == 1 && |b| >= 9 then Some((Opt(Some(FromLittleEndian(b[1..9]))), b[9..]))
      else None
  }

  /** A parsed field re-encodes to the bytes it was read from. */
  lemma ParseFieldSound(kind: Kind, b: seq<Byte>)
    ensures var r := ParseField(kind, b);
            r.Some? ==> Fits(kind, r.value.0) && b == EncodeField(kind, r.value.0) + r.value.1
  {
    match kind {
      case SmallKind(_) =>
      case IntKind(width) =>
        if |b| >= width {
          FromLittleEndianRoundTrip(b[..width]);
        }
      case OptKind =>
        if |b| >= 9 {
          FromLittleEndianRoundTrip(b[1..9]);
          assert b == [b[0]] + b[1..9] + b[9..];
        }
    }
  }

  /** Parsing reads back an encoded field and leaves what follows. */
  lemma ParseFieldComplete(kind: Kind, f: Field, rest: seq<Byte>)
    requires Fits(kind, f)
    ensures ParseField(kind, EncodeField(kind, f) + rest) == Some((f, rest))
  {
    var b := EncodeField(kind, f) + rest;
    match kind {
      case SmallKind(_) =>
      case IntKind(width) =>
        LittleEndianRoundTrip(f.i, width);
        assert b[..width] == EncodeField(kind, f) && b[width..] == rest;
      case OptKind =>
        if f.o.Some? {
          LittleEndianRoundTrip(f.o.value, 8);
          assert b[1..9] == LittleEndian(f.o.value, 8) && b[9..] == rest;
        }
    }
  }

  // ---------- records ----------

  predicate AllFit(kinds: seq<Kind>, fs: seq<Field>) {
    |fs| == |kinds| && forall i | 0 <= i < |fs| :: Fits(kinds[i], fs[i])
  }

  function EncodeAll(kinds: seq<Kind>, fs: seq<Field>): seq<Byte>
    requires AllFit(kinds, fs)
  {
    if fs == [] then [] else EncodeField(kinds[0], fs[0]) + EncodeAll(kinds[1..], fs[1..])
  }

  function ParseAll(kinds: seq<Kind>, b: seq<Byte>): Option<(seq<Field>, seq<Byte>)> {
    if kinds == [] then Some(([], b)) else
      match ParseField(kinds[0], b)
      case None => None
      case Some((f, rest)) =>
        match ParseAll(kinds[1..], rest)
        case None => None
        case Some((fs, rest')) => Some(([f] + fs, rest'))
  }

  lemma {:induction false} ParseAllSound(kinds: seq<Kind>, b: seq<Byte>)
    ensures var r := ParseAll(kinds, b);
            r.Some? ==> AllFit(kinds, r.value.0) && b == EncodeAll(kinds, r.value.0) + r.value.1
    decreases kinds
  {
    hide ParseField, EncodeField, Fits;
    var r := ParseAll(kinds, b);
    if kinds != [] && r.Some? {
      ParseFieldSound(kinds[0], b);
      var (f, rest) := ParseField(kinds[0], b).value;
      ParseAllSound(kinds[1..], rest);
      var fs, tail := r.value.0, ParseAll(kinds[1..], rest).value;
      assert fs[0] == f && fs[1..] == tail.0;
      Reassociate(EncodeField(kinds[0], f), EncodeAll(kinds[1..], tail.0), tail.1);
      forall i | 0 <= i < |fs|
        ensures Fits(kinds[i], fs[i])
      {
        if i > 0 {
          assert kinds[1..][i - 1] == kinds[i] && fs[1..][i - 1] == fs[i];
        }
      }
    }
  }

  lemma {:induction false} ParseAllComplete(kinds: seq<Kind>, fs: seq<Field>, rest: seq<Byte>)
    requires AllFit(kinds, fs)
    ensures ParseAll(kinds, EncodeAll(kinds, fs) + rest) == Some((fs, rest))
    decreases kinds
  {
    if kinds == [] {
      assert fs == [] && EncodeAll(kinds, fs) + rest == rest;
    } else {
      var tail := EncodeAll(kinds[1..], fs[1..]) + rest;
      assert EncodeAll(kinds, fs) + rest == EncodeField(kinds[0], fs[0]) + tail;
      ParseFieldComplete(kinds[0], fs[0], tail);
      ParseAllComplete(kinds[1..], fs[1..], rest);
      assert fs == [fs[0]] + fs[1..];
    }
  }

  // ---------- packets ----------

  const BOOL: Kind := SmallKind(2)
  const SIDE: Kind := SmallKind(2)
  const SELF_TRADE: Kind := SmallKind(3)
  const U64_KIND: Kind := IntKind(8)
  const U128_KIND: Kind := IntKind(16)

  /** The fields of each packet variant, in order. */
  const POST_ONLY: seq<Kind> := [SIDE, U64_KIND, U64_KIND, U128_KIND, BOOL, BOOL, OptKind, OptKind, BOOL]
  const LIMIT: seq<Kind> :=
    [SIDE, U64_KIND, U64_KIND, SELF_TRADE, OptKind, U128_KIND, BOOL, OptKind, OptKind, BOOL]
  const IMMEDIATE: seq<Kind> :=
    [SIDE, OptKind, U64_KIND, U64_KIND, U64_KIND, U64_KIND, SELF_TRADE, OptKind, U128_KIND, BOOL, OptKind, OptKind]

  function Schema(tag: nat): seq<Kind> {
    if tag == 0 then POST_ONLY else if tag == 1 then LIMIT else IMMEDIATE
  }

  function OfBool(b: bool): Field {
    Small(if b then 1 else 0)
  }

  function OfSide(s: Side): Field {
    Small(if s.Bid? then 0 else 1)
  }

  function OfSelfTrade(s: SelfTrade): Field {
    Small(match s case Abort => 0 case CancelProvide => 1 case DecrementTake => 2)
  }

  function Tag(p: OrderPacket): nat {
    if p.PostOnly? then 0 else if p.Limit? then 1 else 2
  }

  function ToFields(p: OrderPacket): seq<Field> {
    match p
    case PostOnly(side, price, base, id, reject, only, slot, time, silent) =>
      [OfSide(side), Int(price), Int(base), Int(id), OfBool(reject), OfBool(only), Opt(slot), Opt(time), OfBool(silent)]
    case Limit(side, price, base, st, limit, id, only, slot, time, silent) =>
      [OfSide(side), Int(price), Int(base), OfSelfTrade(st), Opt(limit), Int(id), OfBool(only), Opt(slot), Opt(time), OfBool(silent)]
    case ImmediateOrCancel(side, price, base, quote, minBase, minQuote, st, limit, id, only, slot, time) =>
      [OfSide(side), Opt(price), Int(base), Int(quote), Int(minBase), Int(minQuote), OfSelfTrade(st), Opt(limit), Int(id),
       OfBool(only), Opt(slot), Opt(time)]
  }

  predicate Sound(tag: nat, fs: seq<Field>) {
    tag < 3 && AllFit(Schema(tag), fs)
  }

  lemma Widths()
    ensures Pow256(8) == U64_MAX + 1
    ensures Pow256(16) == 0xFFFF_FFFF_FFFF_FFFF_FFFF_FFFF_FFFF_FFFF + 1
  {
    assert Pow256(4) == 0x1_0000_0000;
    assert Pow256(8) == U64_MAX + 1;
    assert Pow256(12) == 0x1_0000_0000 * Pow256(8);
    assert Pow256(16) == 0x1_0000_0000 * Pow256(12);
  }

  // Fields as values; a field of another kind reads as the default.

  function AsSide(f: Field): Side {
    if f == Small(0) then Bid else Ask
  }

  function AsSelfTrade(f: Field): SelfTrade {
    if f == Small(0) then Abort else if f == Small(1) then CancelProvide else DecrementTake
  }

  function AsU64(f: Field): U64 {
    if f.Int? && f.i <= U64_MAX then f.i else 0
  }

  function AsU128(f: Field): U128 {
    if f.Int? && f.i <= 0xFFFF_FFFF_FFFF_FFFF_FFFF_FFFF_FFFF_FFFF then f.i else 0
  }

  function AsOpt(f: Field): Option<U64> {
    if f.Opt? && f.o.Some? && f.o.value <= U64_MAX then Some(f.o.value) else None
  }

  predicate AsBool(f: Field) {
    f == Small(1)
  }

  function AsPostOnly(fs: seq<Field>): OrderPacket
    requires |fs| == |POST_ONLY|
  {
    PostOnly(AsSide(fs[0]), AsU64(fs[1]), AsU64(fs[2]), AsU128(fs[3]), AsBool(fs[4]), AsBool(fs[5]),
             AsOpt(fs[6]), AsOpt(fs[7]), AsBool(fs[8]))
  }

  function AsLimit(fs: seq<Field>): OrderPacket
    requires |fs| == |LIMIT|
  {
    Limit(AsSide(fs[0]), AsU64(fs[1]), AsU64(fs[2]), AsSelfTrade(fs[3]), AsOpt(fs[4]), AsU128(fs[5]), AsBool(fs[6]),
          AsOpt(fs[7]), AsOpt(fs[8]), AsBool(fs[9]))
  }

  function AsImmediate(fs: seq<Field>): OrderPacket
    requires |fs| == |IMMEDIATE|
  {
    ImmediateOrCancel(AsSide(fs[0]), AsOpt(fs[1]), AsU64(fs[2]), AsU64(fs[3]), AsU64(fs[4]), AsU64(fs[5]),
                      AsSelfTrade(fs[6]), AsOpt(fs[7]), AsU128(fs[8]), AsBool(fs[9]), AsOpt(fs[10]), AsOpt(fs[11]))
  }

  function FromFields(tag: nat, fs: seq<Field>): OrderPacket
    requires Sound(tag, fs)
  {
    if tag == 0 then AsPostOnly(fs) else if tag == 1 then AsLimit(fs) else AsImmediate(fs)
  }

  lemma ToFieldsSound(p: OrderPacket)
    ensures Sound(Tag(p), ToFields(p)) && FromFields(Tag(p), ToFields(p)) == p
  {
    hide Pow256;
    Widths();
  }

  lemma FromFieldsSound(tag: nat, fs: seq<Field>)
    requires Sound(tag, fs)
    ensures Tag(FromFields(tag, fs)) == tag && ToFields(FromFields(tag, fs)) == fs
  {
    hide Pow256;
    Widths();
    var p := FromFields(tag, fs);
    assert forall i | 0 <= i < |fs| :: Fits(Schema(tag)[i], fs[i]);
    forall i | 0 <= i < |fs|
      ensures ToFields(p)[i] == fs[i]
    {
    }
  }

  function Encode(p: OrderPacket): seq<Byte> {
    ToFieldsSound(p);
    [Tag(p)] + EncodeAll(Schema(Tag(p)), ToFields(p))
  }

  /** Strict deserialization: the whole slice must be one packet. */
  function TryFromSlice(b: seq<Byte>): Option<OrderPacket> {
    if b == [] || b[0] >= 3 then None else
      match ParseAll(Schema(b[0]), b[1..])
      case None => None
      case Some((fs, rest)) =>
        ParseAllSound(Schema(b[0]), b[1..]);
        if rest == [] then Some(FromFields(b[0], fs)) else None
  }

  /** Strict deserialization succeeds exactly on the encodings. */
  lemma TryFromSliceExact(b: seq<Byte>, p: OrderPacket)
    ensures TryFromSlice(b) == Some(p) <==> b == Encode(p)
  {
    hide Schema, ToFields, FromFields;
    ToFieldsSound(p);
    if b == Encode(p) {
      ParseAllComplete(Schema(Tag(p)), ToFields(p), []);
      assert b[1..] == EncodeAll(Schema(Tag(p)), ToFields(p)) + [];
    }
    if TryFromSlice(b) == Some(p) {
      ParseAllSound(Schema(b[0]), b[1..]);
      var (fs, rest) := ParseAll(Schema(b[0]), b[1..]).value;
      FromFieldsSound(b[0], fs);
      assert b == [b[0]] + b[1..] == [b[0]] + EncodeAll(Schema(b[0]), fs);
    }
  }

  /** No encoding is a proper prefix of another. */
  lemma PrefixFree(p: OrderPacket, q: OrderPacket, rest: seq<Byte>)
    requires Encode(q) == Encode(p) + rest
    ensures rest == [] && p == q
  {
    hide Schema, ToFields, FromFields, EncodeAll, ParseAll, AllFit;
    ToFieldsSound(p);
    ToFieldsSound(q);
    var kp, fp, fq := Schema(Tag(p)), ToFields(p), ToFields(q);
    assert Encode(q)[0] == Tag(p) && Encode(q)[0] == Tag(q);
    assert Encode(q)[1..] == EncodeAll(kp, fp) + rest;
    assert Encode(q)[1..] == EncodeAll(kp, fq) + [];
    ParseAllComplete(kp, fp, rest);
    ParseAllComplete(kp, fq, []);
  }

  // ---------- the lenient decoder ----------

  function Zeros(k: nat): seq<Byte> {
    if k == 0 then [] else Zeros(k - 1) + [0]
  }

  /** Bytes that become the encoding of `p` when up to three zero bytes are appended. */
  predicate Completes(b: seq<Byte>, k: nat, p: OrderPacket) {
    k <= 3 && b + Zeros(k) == Encode(p)
  }

  lemma CompletionUnique(b: seq<Byte>, j: nat, p: OrderPacket, k: nat, q: OrderPacket)
    requires Completes(b, j, p) && Completes(b, k, q)
    ensures p == q
  {
    if j <= k {
      LongerCompletion(b, j, p, k, q);
    } else {
      LongerCompletion(b, k, q, j, p);
    }
  }

  lemma LongerCompletion(b: seq<Byte>, j: nat, p: OrderPacket, k: nat, q: OrderPacket)
    requires Completes(b, j, p) && Completes(b, k, q) && j <= k
    ensures p == q
  {
    hide Encode, Zeros;
    ZerosSplit(j, k);
    Reassociate(b, Zeros(j), Zeros(k - j));
    PrefixFree(p, q, Zeros(k - j));
  }

  lemma Reassociate(a: seq<Byte>, b: seq<Byte>, c: seq<Byte>)
    ensures a + (b + c) == (a + b) + c
  {
  }

  lemma {:induction false} ZerosSplit(j: nat, k: nat)
    requires j <= k
    ensures Zeros(k) == Zeros(j) + Zeros(k - j)
  {
    if j < k {
      ZerosSplit(j, k - 1);
    }
  }

  /** The first success among the bytes as they are and padded with three, two and one zero bytes. */
  function Decode(bytes: seq<Byte>): Option<OrderPacket> {
    var plain, three, two := TryFromSlice(bytes), TryFromSlice(bytes + Zeros(3)), TryFromSlice(bytes + Zeros(2));
    if plain.Some? then plain else if three.Some? then three else if two.Some? then two
    else TryFromSlice(bytes + Zeros(1))
  }

  /** Decoding finds a packet exactly when the bytes are its encoding with at most three trailing zero
      bytes left off. */
  lemma DecodeExact(bytes: seq<Byte>, p: OrderPacket)
    ensures Decode(bytes) == Some(p) <==> exists k: nat :: Completes(bytes, k, p)
  {
    hide Encode, TryFromSlice, Zeros;
    Tried(bytes, 0);
    Tried(bytes, 1);
    Tried(bytes, 2);
    Tried(bytes, 3);
    var r := Decode(bytes);
    if r.Some? {
      assert exists k: nat :: Completes(bytes, k, r.value);
      var k: nat :| Completes(bytes, k, r.value);
      forall j: nat | Completes(bytes, j, p)
        ensures p == r.value
      {
        CompletionUnique(bytes, k, r.value, j, p);
      }
    }
  }

  /** Decodes a packet, trying the bytes as they are and then padded with three, two and one zero
      bytes. It finds a packet exactly when the bytes are its encoding with at most three trailing
      zero bytes left off. */
  method DecodeOrderPacket(bytes: seq<Byte>) returns (r: Option<OrderPacket>)
    ensures forall p :: r == Some(p) <==> exists k: nat :: Completes(bytes, k, p)
    ensures r == Decode(bytes)
  {
    hide Encode, TryFromSlice;
    r := TryFromSlice(bytes);
    Tried(bytes, 0);
    var padded, k := bytes + [0, 0, 0], 3;
    assert Zeros(1) == [0] && Zeros(2) == [0, 0] && Zeros(3) == [0, 0, 0];
    while r.None? && k > 0
      invariant k <= 3 && (k > 0 ==> padded == bytes + Zeros(k))
      invariant r.None? ==> forall j: nat, p | (j == 0 || k < j) && Completes(bytes, j, p) :: false
      invariant r.Some? ==> exists j: nat :: Completes(bytes, j, r.value)
    {
      r := TryFromSlice(padded);
      Tried(bytes, k);
      padded := padded[..|padded| - 1];
      k := k - 1;
      assert k > 0 ==> padded == bytes + Zeros(k);
    }
    if r.Some? {
      var k :| Completes(bytes, k, r.value);
      forall j: nat, q | Completes(bytes, j, q)
        ensures q == r.value
      {
        CompletionUnique(bytes, k, r.value, j, q);
      }
    }
    AllTried(bytes, r);
  }

  lemma AllTried(bytes: seq<Byte>, r: Option<OrderPacket>)
    requires forall p :: r == Some(p) <==> exists k: nat :: Completes(bytes, k, p)
    ensures r == Decode(bytes)
  {
    hide Completes, Decode;
    if r.Some? {
      DecodeExact(bytes, r.value);
    } else if Decode(bytes).Some? {
      DecodeExact(bytes, Decode(bytes).value);
    }
  }

  lemma Tried(bytes: seq<Byte>, k: nat)
    requires k <= 3
    ensures var r := TryFromSlice(bytes + Zeros(k));
            (r.Some? ==> Completes(bytes, k, r.value)) && (r.None? ==> forall p :: !Completes(bytes, k, p))
    ensures k == 0 ==> bytes + Zeros(k) == bytes
  {
    var b := bytes + Zeros(k);
    var r := TryFromSlice(b);
    if r.Some? {
      TryFromSliceExact(b, r.value);
    } else {
      forall p
        ensures !Completes(bytes, k, p)
      {
        TryFromSliceExact(b, p);
      }
    }
  }

  // ---------- leaving off default fields ----------

  /** How many of the last fields of a packet have their default value, up to three. */
  function TrailingDefaults(p: OrderPacket): nat {
    if p.ImmediateOrCancel? then
      if p.lastValidTime.Some? then 0 else if p.lastValidSlot.Some? then 1 else 2
    else
      if p.failSilently then 0 else if p.lastValidTime.Some? then 1 else if p.lastValidSlot.Some? then 2 else 3
  }

  lemma {:induction false} EncodeAllConcat(kinds: seq<Kind>, fs: seq<Field>, n: nat)
    requires AllFit(kinds, fs) && n <= |fs|
    ensures AllFit(kinds[..n], fs[..n]) && AllFit(kinds[n..], fs[n..])
    ensures EncodeAll(kinds, fs) == EncodeAll(kinds[..n], fs[..n]) + EncodeAll(kinds[n..], fs[n..])
    decreases n
  {
    hide EncodeField, Fits;
    if n > 0 {
      EncodeAllConcat(kinds[1..], fs[1..], n - 1);
      assert kinds[..n][1..] == kinds[1..][..n - 1] && fs[..n][1..] == fs[1..][..n - 1];
      assert kinds[1..][n - 1..] == kinds[n..] && fs[1..][n - 1..] == fs[n..];
      Reassociate(EncodeField(kinds[0], fs[0]), EncodeAll(kinds[..n][1..], fs[..n][1..]), EncodeAll(kinds[n..], fs[n..]));
    } else {
      assert kinds[0..] == kinds && fs[0..] == fs;
    }
  }

  predicate IsDefault(kind: Kind, f: Field) {
    (kind.SmallKind? && f == Small(0)) || (kind.OptKind? && f == Opt(None))
  }

  lemma {:induction false} DefaultsAreZeros(kinds: seq<Kind>, fs: seq<Field>)
    requires AllFit(kinds, fs) && forall i | 0 <= i < |fs| :: IsDefault(kinds[i], fs[i])
    ensures EncodeAll(kinds, fs) == Zeros(|fs|)
    decreases kinds
  {
    if fs != [] {
      DefaultsAreZeros(kinds[1..], fs[1..]);
      ZerosSplit(1, |fs|);
      assert Zeros(1) == [0];
    }
  }

  lemma DefaultTail(kinds: seq<Kind>, fs: seq<Field>, k: nat) returns (kept: seq<Byte>)
    requires AllFit(kinds, fs) && k <= |fs|
    requires forall i | |fs| - k <= i < |fs| :: IsDefault(kinds[i], fs[i])
    ensures EncodeAll(kinds, fs) == kept + Zeros(k)
  {
    hide EncodeAll, Zeros;
    var n := |fs| - k;
    EncodeAllConcat(kinds, fs, n);
    DefaultsAreZeros(kinds[n..], fs[n..]);
    kept := EncodeAll(kinds[..n], fs[..n]);
  }

  /** The last `k` fields have their default values. */
  lemma TrailingFieldsAreDefault(p: OrderPacket, k: nat)
    requires k <= TrailingDefaults(p)
    ensures var kinds, fs := Schema(Tag(p)), ToFields(p);
            k <= |fs| == |kinds| && forall i | |fs| - k <= i < |fs| :: IsDefault(kinds[i], fs[i])
  {
    var kinds, fs := Schema(Tag(p)), ToFields(p);
    var n := |fs|;
    assert k >= 1 ==> IsDefault(kinds[n - 1], fs[n - 1]);
    assert k >= 2 ==> IsDefault(kinds[n - 2], fs[n - 2]);
    assert k >= 3 ==> IsDefault(kinds[n - 3], fs[n - 3]);
  }

  /** A packet whose last `k` fields are default is decoded from its encoding without its last `k`
      bytes. */
  lemma TruncatedRoundTrip(p: OrderPacket, k: nat)
    requires k <= TrailingDefaults(p)
    ensures k <= |Encode(p)| && Decode(Encode(p)[..|Encode(p)| - k]) == Some(p)
  {
    hide Encode, Decode, Completes;
    TruncatedCompletes(p, k);
    DecodeExact(Encode(p)[..|Encode(p)| - k], p);
  }

  lemma TruncatedCompletes(p: OrderPacket, k: nat)
    requires k <= TrailingDefaults(p)
    ensures k <= |Encode(p)| && Completes(Encode(p)[..|Encode(p)| - k], k, p)
  {
    TrailingFieldsAreDefault(p, k);
    hide Schema, ToFields, FromFields, EncodeAll, Zeros, AllFit, IsDefault;
    ToFieldsSound(p);
    var kept := DefaultTail(Schema(Tag(p)), ToFields(p), k);
    ZerosLength(k);
    Reassociate([Tag(p)], kept, Zeros(k));
    DropSuffix([Tag(p)] + kept, Zeros(k));
  }

  lemma DropSuffix(a: seq<Byte>, b: seq<Byte>)
    ensures (a + b)[..|a + b| - |b|] == a
  {
  }

  lemma {:induction false} ZerosLength(k: nat)
    ensures |Zeros(k)| == k
  {
    if k > 0 {
      ZerosLength(k - 1);
    }
  }

  // ---------- the bytes on the wire ----------

  /** Integers are written with their lowest byte first. */
  lemma {:induction false} LowestByteFirst(n: nat, width: nat, i: nat)
    requires i < width
    ensures LittleEndian(n, width)[i] == n / Pow256(i) % 256
  {
    if i > 0 {
      LowestByteFirst(n / 256, width - 1, i - 1);
      DivTwice(n, Pow256(i - 1));
    }
  }

  lemma DivTwice(n: nat, d: nat)
    requires d > 0
    ensures n / 256 / d == n / (256 * d)
  {
    var q := n / 256 / d;
    DivIsFloor(n / 256, d, q);
    DivIsFloor(n / 256, d, q + 1);
    DivIsFloor(n, 256, q * d);
    DivIsFloor(n, 256, (q + 1) * d);
    MulSwap(q, d, 256);
    MulSwap(q + 1, d, 256);
    DivIsFloor(n, 256 * d, q);
    DivIsFloor(n, 256 * d, q + 1);
  }

  lemma FirstFields(kinds: seq<Kind>, fs: seq<Field>)
    requires AllFit(kinds, fs) && |fs| >= 4
    ensures AllFit(kinds[4..], fs[4..])
    ensures EncodeAll(kinds, fs) ==
            EncodeField(kinds[0], fs[0]) + (EncodeField(kinds[1], fs[1]) + (EncodeField(kinds[2], fs[2])
            + (EncodeField(kinds[3], fs[3]) + EncodeAll(kinds[4..], fs[4..]))))
  {
    hide EncodeField, Fits;
    var k1, f1 := kinds[1..], fs[1..];
    var k2, f2 := k1[1..], f1[1..];
    var k3, f3 := k2[1..], f2[1..];
    assert k3[1..] == kinds[4..] && f3[1..] == fs[4..];
    assert EncodeAll(k1, f1) == EncodeField(k1[0], f1[0]) + EncodeAll(k2, f2);
    assert EncodeAll(k2, f2) == EncodeField(k2[0], f2[0]) + EncodeAll(k3, f3);
    assert EncodeAll(k3, f3) == EncodeField(k3[0], f3[0]) + EncodeAll(k3[1..], f3[1..]);
  }

  /** How a packet begins: the variant, the side, and for orders that may rest the price and the size
      as eight bytes each; a limit order then names its self-trade behaviour. */
  lemma PacketBegins(p: OrderPacket)
    ensures var b := Encode(p);
            && |b| >= 2
            && b[0] == (match p
                        case PostOnly(_, _, _, _, _, _, _, _, _) => 0
                        case Limit(_, _, _, _, _, _, _, _, _, _) => 1
                        case ImmediateOrCancel(_, _, _, _, _, _, _, _, _, _, _, _) => 2)
            && b[1] == (match p.side case Bid => 0 case Ask => 1)
            && (p.PostOnly? || p.Limit? ==>
                  |b| >= 18 && b[2..10] == LittleEndian(p.price, 8) && b[10..18] == LittleEndian(p.baseLots, 8))
            && (p.Limit? ==>
                  |b| >= 19 && b[18] == (match p.selfTrade case Abort => 0 case CancelProvide => 1 case DecrementTake => 2))
  {
    hide EncodeAll, LittleEndian, FromFields, Pow256;
    ToFieldsSound(p);
    var ks, fs := Schema(Tag(p)), ToFields(p);
    FirstFields(ks, fs);
    if p.PostOnly? || p.Limit? {
      var rest := EncodeField(ks[3], fs[3]) + EncodeAll(ks[4..], fs[4..]);
      WireSlices(Tag(p), EncodeField(ks[0], fs[0]), LittleEndian(p.price, 8), LittleEndian(p.baseLots, 8), rest);
    }
  }

  lemma WireSlices(tag: Byte, side: seq<Byte>, price: seq<Byte>, lots: seq<Byte>, rest: seq<Byte>)
    requires |side| == 1 && |price| == 8 && |lots| == 8
    ensures var b := [tag] + (side + (price + (lots + rest)));
            b[2..10] == price && b[10..18] == lots && b[18..] == rest && (rest != [] ==> b[18] == rest[0])
  {
  }
}
