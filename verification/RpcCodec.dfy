/** Length-prefixed little-endian codec of the RPC layer. */
module RpcCodec {
  import opened Prelude
  import opened Protobuf

  // ---------- little-endian words ----------

  function Pow256(w: nat): (p: nat)
    ensures p > 0
  {
    if w == 0 then 1 else 256 * Pow256(w - 1)
  }

  function LittleEndian(n: nat, width: nat): (r: seq<byte>)
    ensures |r| == width
  {
    if width == 0 then [] else [n % 256] + LittleEndian(n / 256, width - 1)
  }

  function FromLittleEndian(b: seq<byte>): nat {
    if b == [] then 0 else b[0] + 256 * FromLittleEndian(b[1..])
  }

  lemma {:induction false} LittleEndianRoundTrip(n: nat, width: nat)
    requires n < Pow256(width)
    ensures FromLittleEndian(LittleEndian(n, width)) == n
  {
    if width > 0 {
      LittleEndianRoundTrip(n / 256, width - 1);
      assert LittleEndian(n, width)[1..] == LittleEndian(n / 256, width - 1);
    }
  }

  lemma WordSizes()
    ensures Pow256(1) == 256 && Pow256(4) == TWO_32 && Pow256(8) == TWO_64
  {
    assert Pow256(2) == 0x1_0000 && Pow256(4) == 0x1_0000 * 0x1_0000;
    assert Pow256(6) == 0x1_0000 * Pow256(4) && Pow256(8) == 0x1_0000 * Pow256(6);
  }

  // ---------- types and values ----------

  datatype Ty = Int32 | UInt32 | Int64 | UInt64 | Bool | SString | Message | Vector(elem: Ty)

  datatype Val<M> = Num(n: int) | Flag(b: bool) | Text(s: seq<byte>) | Msg(m: M) | Vec(items: seq<Val<M>>)

  predicate Scalar(t: Ty) {
    t.Int32? || t.UInt32? || t.Int64? || t.UInt64? || t.Bool?
  }

  function Width(t: Ty): nat
    requires Scalar(t)
  {
    match t
    case Int32 => 4
    case UInt32 => 4
    case Int64 => 8
    case UInt64 => 8
    case Bool => 1
  }

  predicate InRange<M>(t: Ty, v: Val<M>)
    requires Scalar(t)
  {
    match t
    case Int32 => v.Num? && -TWO_31 <= v.n < TWO_31
    case UInt32 => v.Num? && 0 <= v.n < TWO_32
    case Int64 => v.Num? && -TWO_63 <= v.n < TWO_63
    case UInt64 => v.Num? && 0 <= v.n < TWO_64
    case Bool => v.Flag?
  }

  /** The object representation as an unsigned word: two's complement for the signed types. */
  function ToWord<M>(t: Ty, v: Val<M>): (w: nat)
    requires Scalar(t) && InRange(t, v)
  {
    match t
    case Int32 => v.n % TWO_32
    case UInt32 => v.n
    case Int64 => v.n % TWO_64
    case UInt64 => v.n
    case Bool => if v.b then 1 else 0
  }

  function FromWord<M>(t: Ty, w: nat): Val<M>
    requires Scalar(t)
  {
    match t
    case Int32 => Num(if w < TWO_31 then w else w - TWO_32)
    case UInt32 => Num(w)
    case Int64 => Num(if w < TWO_63 then w else w - TWO_64)
    case UInt64 => Num(w)
    case Bool => Flag(w != 0)
  }

  // ---------- the encoding ----------

  /** `uint32_t(n)` truncates; the body that follows does not. */
  function Prefix(n: nat): (r: seq<byte>)
    ensures |r| == 4
  {
    LittleEndian(n % TWO_32, 4)
  }

  /** None when the value is not of the type, or some message refuses to serialize. */
  function Encode<M>(pb: Codec<M>, t: Ty, v: Val<M>): Option<seq<byte>>
    decreases t, 0, 0
  {
    if Scalar(t) then
      if InRange(t, v) then Some(LittleEndian(ToWord(t, v), Width(t))) else None
    else
      match (t, v)
      case (SString, Text(s)) => Some(Prefix(|s|) + s)
      case (Message, Msg(m)) =>
        (match pb.serialize(m)
         case None => None
         case Some(d) => Some(Prefix(|d|) + d))
      case (Vector(e), Vec(items)) =>
        (match EncodeItems(pb, e, items)
         case None => None
         case Some(d) => Some(Prefix(|items|) + d))
      case _ => None
  }

  function EncodeItems<M>(pb: Codec<M>, e: Ty, vs: seq<Val<M>>): Option<seq<byte>>
    decreases e, 1, |vs|
  {
    if vs == [] then Some([])
    else
      var a := Encode(pb, e, vs[0]);
      var b := EncodeItems(pb, e, vs[1..]);
      if a.Some? && b.Some? then Some(a.value + b.value) else None
  }

  /** Every length fits the 32-bit prefix. */
  predicate Sized<M>(v: Val<M>) {
    match v
    case Text(s) => |s| < TWO_32
    case Vec(items) => |items| < TWO_32 && SizedItems(items)
    case _ => true
  }

  predicate SizedItems<M>(vs: seq<Val<M>>) {
    vs == [] || (Sized(vs[0]) && SizedItems(vs[1..]))
  }

  function Take(n: nat, input: seq<byte>): Option<(seq<byte>, seq<byte>)> {
    if n <= |input| then Some((input[..n], input[n..])) else None
  }

  /** None is the exception path: input exhausted, or a message that does not parse. */
  function Decode<M>(pb: Codec<M>, t: Ty, input: seq<byte>): Option<(Val<M>, seq<byte>)>
    decreases t, 0, 0
  {
    if Scalar(t) then
      match Take(Width(t), input)
      case None => None
      case Some((w, rest)) => Some((FromWord(t, FromLittleEndian(w)), rest))
    else
      match Take(4, input)
      case None => None
      case Some((p, body)) =>
        var n := FromLittleEndian(p);
        match t
        case Vector(e) =>
          (match DecodeItems(pb, e, n, [], body)
           case None => None
           case Some((vs, rest)) => Some((Vec(vs), rest)))
        case _ =>
          match Take(n, body)
          case None => None
          case Some((d, rest)) =>
            if t.SString? then Some((Text(d), rest))
            else
              match pb.parse(d)
              case None => None
              case Some(m) => Some((Msg(m), rest))
  }

  /** Reads n items onto the end of `acc`. */
  function DecodeItems<M>(pb: Codec<M>, e: Ty, n: nat, acc: seq<Val<M>>, input: seq<byte>)
    : (r: Option<(seq<Val<M>>, seq<byte>)>)
    ensures r.Some? ==> |r.value.0| == |acc| + n
    decreases e, 1, n
  {
    if n == 0 then Some((acc, input))
    else
      match Decode(pb, e, input)
      case None => None
      case Some((v, rest)) => DecodeItems(pb, e, n - 1, acc + [v], rest)
  }

  // ---------- round trip ----------

  lemma TakeAppend(a: seq<byte>, b: seq<byte>)
    ensures Take(|a|, a + b) == Some((a, b))
  {
    assert (a + b)[..|a|] == a && (a + b)[|a|..] == b;
  }

  /** The reader finds the length first, then the body. */
  lemma PrefixSplit(n: nat, d: seq<byte>, rest: seq<byte>)
    ensures Take(4, Prefix(n) + d + rest) == Some((Prefix(n), d + rest))
    ensures FromLittleEndian(Prefix(n)) == n % TWO_32
    ensures Take(|d|, d + rest) == Some((d, rest))
  {
    WordSizes();
    LittleEndianRoundTrip(n % TWO_32, 4);
    assert Prefix(n) + d + rest == Prefix(n) + (d + rest);
    TakeAppend(Prefix(n), d + rest);
    TakeAppend(d, rest);
  }

  lemma WordRoundTrip<M>(t: Ty, v: Val<M>)
    requires Scalar(t) && InRange(t, v)
    ensures ToWord(t, v) < Pow256(Width(t)) && FromWord(t, ToWord(t, v)) == v
  {
    WordSizes();
  }

  lemma ScalarRoundTrip<M>(pb: Codec<M>, t: Ty, v: Val<M>, rest: seq<byte>)
    requires Scalar(t) && InRange(t, v)
    ensures Decode(pb, t, Encode(pb, t, v).value + rest) == Some((v, rest))
  {
    hide LittleEndian, FromLittleEndian;
    WordRoundTrip(t, v);
    LittleEndianRoundTrip(ToWord(t, v), Width(t));
    TakeAppend(LittleEndian(ToWord(t, v), Width(t)), rest);
  }

  lemma TextRoundTrip<M>(pb: Codec<M>, s: seq<byte>, rest: seq<byte>)
    requires |s| < TWO_32
    ensures Decode(pb, SString, Encode(pb, SString, Text(s)).value + rest) == Some((Text(s), rest))
  {
    hide LittleEndian, FromLittleEndian;
    PrefixSplit(|s|, s, rest);
  }

  lemma MessageRoundTrip<M(!new)>(pb: Codec<M>, m: M, rest: seq<byte>)
    requires Faithful(pb) && pb.serialize(m).Some?
    ensures Decode(pb, Message, Encode(pb, Message, Msg(m)).value + rest) == Some((Msg(m), rest))
  {
    hide LittleEndian, FromLittleEndian;
    PrefixSplit(|pb.serialize(m).value|, pb.serialize(m).value, rest);
  }

  lemma VectorRoundTrip<M>(pb: Codec<M>, e: Ty, vs: seq<Val<M>>, rest: seq<byte>)
    requires |vs| < TWO_32 && EncodeItems(pb, e, vs).Some?
    requires DecodeItems(pb, e, |vs|, [], EncodeItems(pb, e, vs).value + rest) == Some((vs, rest))
    ensures Decode(pb, Vector(e), Encode(pb, Vector(e), Vec(vs)).value + rest) == Some((Vec(vs), rest))
  {
    hide LittleEndian, FromLittleEndian;
    PrefixSplit(|vs|, EncodeItems(pb, e, vs).value, rest);
  }

  lemma {:induction false} RoundTrip<M(!new)>(pb: Codec<M>, t: Ty, v: Val<M>, rest: seq<byte>)
    requires Faithful(pb) && Sized(v) && Encode(pb, t, v).Some?
    ensures Decode(pb, t, Encode(pb, t, v).value + rest) == Some((v, rest))
    decreases t, 0, 0
  {
    match t
    case SString => TextRoundTrip(pb, v.s, rest);
    case Message => MessageRoundTrip(pb, v.m, rest);
    case Vector(e) =>
      ItemsRoundTrip(pb, e, v.items, [], rest);
      assert [] + v.items == v.items;
      VectorRoundTrip(pb, e, v.items, rest);
    case _ => ScalarRoundTrip(pb, t, v, rest);
  }

  lemma {:induction false} ItemsRoundTrip<M(!new)>(pb: Codec<M>, e: Ty, vs: seq<Val<M>>, acc: seq<Val<M>>, rest: seq<byte>)
    requires Faithful(pb) && SizedItems(vs) && EncodeItems(pb, e, vs).Some?
    ensures DecodeItems(pb, e, |vs|, acc, EncodeItems(pb, e, vs).value + rest) == Some((acc + vs, rest))
    decreases e, 1, |vs|
  {
    hide Encode, Decode;
    if vs == [] {
      assert [] + rest == rest && acc + vs == acc;
    } else {
      var a, b := Encode(pb, e, vs[0]).value, EncodeItems(pb, e, vs[1..]).value;
      assert a + b + rest == a + (b + rest);
      RoundTrip(pb, e, vs[0], b + rest);
      ItemsRoundTrip(pb, e, vs[1..], acc + [vs[0]], rest);
      assert acc + [vs[0]] + vs[1..] == acc + vs;
    }
  }

  /** A value that comes back had only lengths that fit. */
  lemma {:induction false} RecoveredIsSized<M(!new)>(pb: Codec<M>, t: Ty, v: Val<M>, rest: seq<byte>)
    requires Faithful(pb) && Encode(pb, t, v).Some?
    requires Decode(pb, t, Encode(pb, t, v).value + rest).Some?
    requires Decode(pb, t, Encode(pb, t, v).value + rest).value.0 == v
    ensures Sized(v)
    decreases t, 0, 0
  {
    hide LittleEndian, FromLittleEndian;
    match t
    case SString => PrefixSplit(|v.s|, v.s, rest);
    case Vector(e) =>
      PrefixSplit(|v.items|, EncodeItems(pb, e, v.items).value, rest);
      RecoveredItemsAreSized(pb, e, v.items, [], rest);
    case _ =>
  }

  lemma {:induction false} RecoveredItemsAreSized<M(!new)>(
    pb: Codec<M>, e: Ty, vs: seq<Val<M>>, acc: seq<Val<M>>, rest: seq<byte>)
    requires Faithful(pb) && EncodeItems(pb, e, vs).Some?
    requires DecodeItems(pb, e, |vs|, acc, EncodeItems(pb, e, vs).value + rest).Some?
    requires DecodeItems(pb, e, |vs|, acc, EncodeItems(pb, e, vs).value + rest).value.0 == acc + vs
    ensures SizedItems(vs)
    decreases e, 1, |vs|
  {
    hide Encode, Decode;
    if vs != [] {
      var a, b := Encode(pb, e, vs[0]).value, EncodeItems(pb, e, vs[1..]).value;
      assert a + b + rest == a + (b + rest);
      var (v, tail) := Decode(pb, e, a + (b + rest)).value;
      DecodeItemsKeeps(pb, e, |vs| - 1, acc + [v], tail);
      assert v == (acc + vs)[|acc|];
      RecoveredIsSized(pb, e, vs[0], b + rest);
      RoundTrip(pb, e, vs[0], b + rest);
      assert acc + [vs[0]] + vs[1..] == acc + vs;
      RecoveredItemsAreSized(pb, e, vs[1..], acc + [vs[0]], rest);
    }
  }

  lemma {:induction false} DecodeItemsKeeps<M>(pb: Codec<M>, e: Ty, n: nat, acc: seq<Val<M>>, input: seq<byte>)
    requires DecodeItems(pb, e, n, acc, input).Some?
    ensures acc <= DecodeItems(pb, e, n, acc, input).value.0
    decreases n
  {
    if n > 0 {
      var (v, rest) := Decode(pb, e, input).value;
      DecodeItemsKeeps(pb, e, n - 1, acc + [v], rest);
    }
  }

  /** Reading back yields the value and exactly the suffix if and only if every length fits 32 bits. */
  lemma RoundTripExactly<M(!new)>(pb: Codec<M>, t: Ty, v: Val<M>, rest: seq<byte>)
    requires Faithful(pb) && Encode(pb, t, v).Some?
    ensures Decode(pb, t, Encode(pb, t, v).value + rest) == Some((v, rest)) <==> Sized(v)
  {
    if Sized(v) {
      RoundTrip(pb, t, v, rest);
    } else if Decode(pb, t, Encode(pb, t, v).value + rest) == Some((v, rest)) {
      RecoveredIsSized(pb, t, v, rest);
    }
  }

  /** No encoding at a type is a proper prefix of another, and encodings are injective. */
  lemma PrefixFree<M(!new)>(pb: Codec<M>, t: Ty, v: Val<M>, w: Val<M>, r: seq<byte>, q: seq<byte>)
    requires Faithful(pb) && Sized(v) && Sized(w) && Encode(pb, t, v).Some? && Encode(pb, t, w).Some?
    requires Encode(pb, t, v).value + r == Encode(pb, t, w).value + q
    ensures v == w && r == q
  {
    RoundTrip(pb, t, v, r);
    RoundTrip(pb, t, w, q);
  }

  lemma EncodeEnds<M>(pb: Codec<M>, e: Ty, vs: seq<Val<M>>)
    ensures vs[0..] == vs && EncodeItems(pb, e, vs[|vs|..]) == Some([])
  {
  }

  lemma EncodeFrom<M>(pb: Codec<M>, e: Ty, vs: seq<Val<M>>, i: nat)
    requires i < |vs|
    ensures EncodeItems(pb, e, vs[i..])
            == var a, b := Encode(pb, e, vs[i]), EncodeItems(pb, e, vs[i + 1..]);
               if a.Some? && b.Some? then Some(a.value + b.value) else None
  {
    assert vs[i..][0] == vs[i] && vs[i..][1..] == vs[i + 1..];
  }

  lemma AppendTwo<T>(a: seq<T>, b: seq<T>, c: seq<T>)
    ensures a + (b + c) == a + b + c && a + [] == a
  {
  }

  // ---------- the bytes on the wire ----------

  /** The four bytes from position i, the least significant first. */
  function Four(b: seq<byte>, i: nat): int
    requires i + 4 <= |b|
  {
    b[i] as int + 0x100 * (b[i + 1] as int) + 0x1_0000 * (b[i + 2] as int) + 0x100_0000 * (b[i + 3] as int)
  }

  predicate Word32(b: seq<byte>, n: int) {
    |b| == 4 && Four(b, 0) == n % 0x1_0000_0000
  }

  predicate Word64(b: seq<byte>, n: int) {
    |b| == 8 && Four(b, 0) + 0x1_0000_0000 * Four(b, 4) == n % 0x1_0000_0000_0000_0000
  }

  /** What the bytes of a value of a type are, said without computing them. */
  ghost predicate Layout<M>(pb: Codec<M>, t: Ty, v: Val<M>, b: seq<byte>)
    decreases t, 0, 0
  {
    match t
    case Int32 => v.Num? && -0x8000_0000 <= v.n <= 0x7fff_ffff && Word32(b, v.n)
    case UInt32 => v.Num? && 0 <= v.n <= 0xffff_ffff && Word32(b, v.n)
    case Int64 => v.Num? && -0x8000_0000_0000_0000 <= v.n <= 0x7fff_ffff_ffff_ffff && Word64(b, v.n)
    case UInt64 => v.Num? && 0 <= v.n <= 0xffff_ffff_ffff_ffff && Word64(b, v.n)
    case Bool => v.Flag? && b == [if v.b then 1 else 0]
    case SString => v.Text? && |b| >= 4 && Word32(b[..4], |v.s|) && b[4..] == v.s
    case Message => v.Msg? && |b| >= 4 && pb.serialize(v.m) == Some(b[4..]) && Word32(b[..4], |b| - 4)
    case Vector(e) => v.Vec? && |b| >= 4 && Word32(b[..4], |v.items|) && ItemsLayout(pb, e, v.items, b[4..])
  }

  /** The items one after the other. */
  ghost predicate ItemsLayout<M>(pb: Codec<M>, e: Ty, vs: seq<Val<M>>, b: seq<byte>)
    decreases e, 1, |vs|
  {
    if vs == [] then b == []
    else exists k :: 0 <= k <= |b| && Layout(pb, e, vs[0], b[..k]) && ItemsLayout(pb, e, vs[1..], b[k..])
  }

  lemma {:induction false} BytesOfWord(b: seq<byte>)
    ensures LittleEndian(FromLittleEndian(b), |b|) == b && FromLittleEndian(b) < Pow256(|b|)
  {
    if b != [] {
      BytesOfWord(b[1..]);
      assert b == [b[0]] + b[1..];
    }
  }

  /** The reader adds up the bytes, the least significant first. */
  lemma ReadWord(b: seq<byte>)
    ensures |b| == 1 ==> FromLittleEndian(b) == b[0]
    ensures |b| == 4 ==> FromLittleEndian(b) == Four(b, 0)
    ensures |b| == 8 ==> FromLittleEndian(b) == Four(b, 0) + 0x1_0000_0000 * Four(b, 4)
  {
    if |b| == 1 {
      assert b[1..] == [];
    } else if |b| == 4 {
      ReadFour(b);
    } else if |b| == 8 {
      hide FromLittleEndian;
      ReadHalves(b);
      ReadFour(b[..4]);
      ReadFour(b[4..]);
    }
  }

  lemma ReadFour(b: seq<byte>)
    requires |b| == 4
    ensures FromLittleEndian(b) == Four(b, 0)
  {
    var c, d := b[1..], b[2..];
    assert c[1..] == d && d[1..] == [b[3]] && [b[3]][1..] == [];
    assert FromLittleEndian([b[3]]) == b[3];
    assert FromLittleEndian(d) == b[2] as int + 0x100 * (b[3] as int);
    assert FromLittleEndian(c) == b[1] as int + 0x100 * FromLittleEndian(d);
  }

  lemma ReadHalves(b: seq<byte>)
    requires |b| == 8
    ensures FromLittleEndian(b) == FromLittleEndian(b[..4]) + 0x1_0000_0000 * FromLittleEndian(b[4..])
  {
    ReadSplit(b[..4], b[4..]);
    assert b == b[..4] + b[4..];
    WordSizes();
  }

  lemma {:induction false} ReadSplit(a: seq<byte>, b: seq<byte>)
    ensures FromLittleEndian(a + b) == FromLittleEndian(a) + Pow256(|a|) * FromLittleEndian(b)
  {
    if a == [] {
      assert a + b == b;
    } else {
      assert (a + b)[0] == a[0] && (a + b)[1..] == a[1..] + b;
      ReadSplit(a[1..], b);
      Distribute(FromLittleEndian(a[1..]), Pow256(|a| - 1), FromLittleEndian(b));
    }
  }

  lemma Distribute(n: nat, p: nat, q: nat)
    ensures 256 * (n + p * q) == 256 * n + 256 * p * q
  {
  }

  lemma WordHasBytes(b: seq<byte>, n: nat, width: nat)
    requires n < Pow256(width)
    ensures |b| == width && FromLittleEndian(b) == n <==> b == LittleEndian(n, width)
  {
    BytesOfWord(b);
    LittleEndianRoundTrip(n, width);
  }

  lemma WordBytes(b: seq<byte>, n: nat)
    ensures n < 0x1_0000_0000 ==> (Word32(b, n) <==> b == LittleEndian(n, 4))
    ensures n < 0x1_0000_0000_0000_0000 ==> (Word64(b, n) <==> b == LittleEndian(n, 8))
    ensures n < 256 ==> (b == [n] <==> b == LittleEndian(n, 1))
  {
    hide LittleEndian, FromLittleEndian, Pow256, Four;
    WordSizes();
    ReadWord(b);
    if n < 256 {
      WordHasBytes(b, n, 1);
    }
    if n < 0x1_0000_0000 {
      WordHasBytes(b, n, 4);
    }
    if n < 0x1_0000_0000_0000_0000 {
      WordHasBytes(b, n, 8);
    }
  }

  lemma WrappedBytes(b: seq<byte>, n: int)
    ensures Word32(b, n) <==> b == LittleEndian(n % 0x1_0000_0000, 4)
    ensures Word64(b, n) <==> b == LittleEndian(n % 0x1_0000_0000_0000_0000, 8)
  {
    hide LittleEndian, Four;
    WordBytes(b, n % 0x1_0000_0000);
    WordBytes(b, n % 0x1_0000_0000_0000_0000);
  }

  lemma ScalarLayout<M>(pb: Codec<M>, t: Ty, v: Val<M>, b: seq<byte>)
    requires Scalar(t)
    ensures Layout(pb, t, v, b) <==> Encode(pb, t, v) == Some(b)
  {
    hide LittleEndian, Four;
    match v
    case Num(n) => WrappedBytes(b, n);
    case Flag(f) => WordBytes(b, if f then 1 else 0);
    case _ =>
  }

  lemma PrefixBytes(n: nat, b: seq<byte>, d: seq<byte>)
    ensures b == Prefix(n) + d <==> |b| >= 4 && Word32(b[..4], n) && b[4..] == d
  {
    hide LittleEndian, Four;
    if |b| >= 4 {
      WrappedBytes(b[..4], n);
      assert b == b[..4] + b[4..];
    }
    if b == Prefix(n) + d {
      assert b[..4] == Prefix(n) && b[4..] == d;
    }
  }

  /** The encoding of a value of a type is the one sequence of bytes with that layout; a value without
      one has no layout either. */
  lemma {:induction false} LayoutExactly<M>(pb: Codec<M>, t: Ty, v: Val<M>, b: seq<byte>)
    ensures Layout(pb, t, v, b) <==> Encode(pb, t, v) == Some(b)
    decreases t, 0, 0
  {
    hide LittleEndian, Four, Word32, Prefix;
    if Scalar(t) {
      ScalarLayout(pb, t, v, b);
    } else {
      match (t, v)
      case (SString, Text(s)) => PrefixBytes(|s|, b, s);
      case (Message, Msg(m)) =>
        if pb.serialize(m).Some? {
          PrefixBytes(|pb.serialize(m).value|, b, pb.serialize(m).value);
        }
      case (Vector(e), Vec(items)) =>
        if |b| >= 4 {
          ItemsLayoutExactly(pb, e, items, b[4..]);
        }
        if EncodeItems(pb, e, items).Some? {
          PrefixBytes(|items|, b, EncodeItems(pb, e, items).value);
        }
      case _ =>
    }
  }

  lemma EncodingHasLayout<M>(pb: Codec<M>, t: Ty, v: Val<M>)
    ensures Encode(pb, t, v).Some? ==> Layout(pb, t, v, Encode(pb, t, v).value)
  {
    hide Encode, Layout;
    if Encode(pb, t, v).Some? {
      LayoutExactly(pb, t, v, Encode(pb, t, v).value);
    }
  }

  lemma {:induction false} ItemsLayoutExactly<M>(pb: Codec<M>, e: Ty, vs: seq<Val<M>>, b: seq<byte>)
    ensures ItemsLayout(pb, e, vs, b) <==> EncodeItems(pb, e, vs) == Some(b)
    decreases e, 1, |vs|
  {
    hide Encode, Layout;
    if vs != [] {
      if ItemsLayout(pb, e, vs, b) {
        var k :| 0 <= k <= |b| && Layout(pb, e, vs[0], b[..k]) && ItemsLayout(pb, e, vs[1..], b[k..]);
        LayoutExactly(pb, e, vs[0], b[..k]);
        ItemsLayoutExactly(pb, e, vs[1..], b[k..]);
        assert b == b[..k] + b[k..];
      }
      if EncodeItems(pb, e, vs) == Some(b) {
        var first, rest := Encode(pb, e, vs[0]).value, EncodeItems(pb, e, vs[1..]).value;
        var k := |first|;
        assert b[..k] == first && b[k..] == rest;
        LayoutExactly(pb, e, vs[0], b[..k]);
        ItemsLayoutExactly(pb, e, vs[1..], b[k..]);
      }
    }
  }

  // ---------- what the reader accepts ----------

  /** The bytes a value can be read from. Unlike the writer, the reader takes any non-zero byte for true. */
  ghost predicate Reads<M>(pb: Codec<M>, t: Ty, v: Val<M>, b: seq<byte>)
    decreases t, 0, 0
  {
    match t
    case Int32 => Layout(pb, Int32, v, b)
    case UInt32 => Layout(pb, UInt32, v, b)
    case Int64 => Layout(pb, Int64, v, b)
    case UInt64 => Layout(pb, UInt64, v, b)
    case Bool => |b| == 1 && v == Flag(b[0] != 0)
    case SString => v.Text? && |b| >= 4 && Four(b, 0) == |v.s| && b[4..] == v.s
    case Message => v.Msg? && |b| >= 4 && Four(b, 0) == |b| - 4 && pb.parse(b[4..]) == Some(v.m)
    case Vector(e) => v.Vec? && |b| >= 4 && Four(b, 0) == |v.items| && ItemsRead(pb, e, v.items, b[4..])
  }

  ghost predicate ItemsRead<M>(pb: Codec<M>, e: Ty, vs: seq<Val<M>>, b: seq<byte>)
    decreases e, 1, |vs|
  {
    if vs == [] then b == []
    else exists k :: 0 <= k <= |b| && Reads(pb, e, vs[0], b[..k]) && ItemsRead(pb, e, vs[1..], b[k..])
  }

  lemma ScalarReads<M>(pb: Codec<M>, t: Ty, b: seq<byte>)
    requires Scalar(t) && |b| == Width(t)
    ensures Reads(pb, t, FromWord(t, FromLittleEndian(b)), b)
    ensures forall v :: Reads(pb, t, v, b) ==> v == FromWord(t, FromLittleEndian(b))
  {
    hide FromLittleEndian, Four, LittleEndian;
    ReadWord(b);
    BytesOfWord(b);
    WordSizes();
    hide Pow256;
  }

  lemma PrefixReads(input: seq<byte>)
    requires |input| >= 4
    ensures FromLittleEndian(input[..4]) == Four(input, 0)
  {
    ReadFour(input[..4]);
  }

  /** What has been read can be read from the bytes consumed, and the others are left. */
  lemma {:induction false} DecodeReads<M>(pb: Codec<M>, t: Ty, input: seq<byte>)
    requires Decode(pb, t, input).Some?
    ensures var (v, rest) := Decode(pb, t, input).value;
            |rest| <= |input| && var k := |input| - |rest|; input[k..] == rest && Reads(pb, t, v, input[..k])
    decreases t, 0, 0
  {
    hide FromLittleEndian, Four, FromWord, Layout;
    if Scalar(t) {
      ScalarReads(pb, t, input[..Width(t)]);
    } else {
      PrefixReads(input);
      match t
      case Vector(e) => DecodeVectorReads(pb, e, input);
      case _ => DecodeBodyReads(pb, t, input);
    }
  }

  lemma DecodeBodyReads<M>(pb: Codec<M>, t: Ty, input: seq<byte>)
    requires (t.SString? || t.Message?) && Decode(pb, t, input).Some?
    ensures var (v, rest) := Decode(pb, t, input).value;
            |rest| <= |input| && var k := |input| - |rest|; input[k..] == rest && Reads(pb, t, v, input[..k])
  {
    hide FromLittleEndian;
    PrefixReads(input);
    var k := 4 + FromLittleEndian(input[..4]);
    assert input[4..][..k - 4] == input[..k][4..] && input[4..][k - 4..] == input[k..];
    assert Four(input[..k], 0) == Four(input, 0);
  }

  lemma {:induction false} DecodeVectorReads<M>(pb: Codec<M>, e: Ty, input: seq<byte>)
    requires Decode(pb, Vector(e), input).Some?
    ensures var (v, rest) := Decode(pb, Vector(e), input).value;
            |rest| <= |input| && var k := |input| - |rest|; input[k..] == rest && Reads(pb, Vector(e), v, input[..k])
    decreases e, 2, 0
  {
    hide FromLittleEndian, DecodeItems, ItemsRead;
    PrefixReads(input);
    var n, body := FromLittleEndian(input[..4]), input[4..];
    DecodeItemsReads(pb, e, n, [], body);
    var (vs, rest) := DecodeItems(pb, e, n, [], body).value;
    var k := |input| - |rest|;
    assert vs[0..] == vs;
    assert body[..k - 4] == input[..k][4..] && body[k - 4..] == input[k..];
    assert Four(input[..k], 0) == Four(input, 0);
  }

  lemma {:induction false} DecodeItemsReads<M>(pb: Codec<M>, e: Ty, n: nat, acc: seq<Val<M>>, input: seq<byte>)
    requires DecodeItems(pb, e, n, acc, input).Some?
    ensures var (vs, rest) := DecodeItems(pb, e, n, acc, input).value;
            && acc <= vs && |rest| <= |input|
            && var k := |input| - |rest|; input[k..] == rest && ItemsRead(pb, e, vs[|acc|..], input[..k])
    decreases e, 1, n
  {
    hide Decode, Reads;
    if n > 0 {
      var (v, tail) := Decode(pb, e, input).value;
      DecodeReads(pb, e, input);
      DecodeItemsReads(pb, e, n - 1, acc + [v], tail);
      var (vs, rest) := DecodeItems(pb, e, n, acc, input).value;
      JoinReads(pb, e, v, vs, |acc|, input, tail, rest);
    }
  }

  lemma JoinReads<M>(pb: Codec<M>, e: Ty, v: Val<M>, vs: seq<Val<M>>, at: nat, input: seq<byte>, tail: seq<byte>, rest: seq<byte>)
    requires |rest| <= |tail| <= |input| && input[|input| - |tail|..] == tail && tail[|tail| - |rest|..] == rest
    requires Reads(pb, e, v, input[..|input| - |tail|]) && at < |vs| && vs[at] == v
    requires ItemsRead(pb, e, vs[at + 1..], tail[..|tail| - |rest|])
    ensures var k := |input| - |rest|; input[k..] == rest && ItemsRead(pb, e, vs[at..], input[..k])
  {
    hide Reads;
    var k, j := |input| - |rest|, |input| - |tail|;
    assert vs[at..][1..] == vs[at + 1..] && vs[at..][0] == v;
    assert input[..k][..j] == input[..j] && input[..k][j..] == tail[..|tail| - |rest|];
  }

  /** Every value that can be read from some bytes is what the reader makes of them. */
  lemma {:induction false} ReadsDecode<M>(pb: Codec<M>, t: Ty, v: Val<M>, b: seq<byte>, rest: seq<byte>)
    requires Reads(pb, t, v, b)
    ensures Decode(pb, t, b + rest) == Some((v, rest))
    decreases t, 0, 0
  {
    hide FromLittleEndian;
    if Scalar(t) {
      ScalarSize(pb, t, v, b);
      ScalarReads(pb, t, b);
      TakeAppend(b, rest);
    } else {
      var p, body := b[..4], b[4..];
      ReadFour(p);
      assert Four(p, 0) == Four(b, 0) && b + rest == p + (body + rest);
      TakeAppend(p, body + rest);
      TakeAppend(body, rest);
      if t.Vector? {
        assert [] + v.items == v.items;
        ItemsReadDecode(pb, t.elem, v.items, [], body, rest);
      }
    }
  }

  lemma ScalarSize<M>(pb: Codec<M>, t: Ty, v: Val<M>, b: seq<byte>)
    requires Scalar(t) && Reads(pb, t, v, b)
    ensures |b| == Width(t)
  {
  }

  lemma {:induction false} ItemsReadDecode<M>(pb: Codec<M>, e: Ty, vs: seq<Val<M>>, acc: seq<Val<M>>, b: seq<byte>, rest: seq<byte>)
    requires ItemsRead(pb, e, vs, b)
    ensures DecodeItems(pb, e, |vs|, acc, b + rest) == Some((acc + vs, rest))
    decreases e, 1, |vs|
  {
    hide Decode, Reads;
    if vs == [] {
      assert b + rest == rest && acc + vs == acc;
    } else {
      var k :| 0 <= k <= |b| && Reads(pb, e, vs[0], b[..k]) && ItemsRead(pb, e, vs[1..], b[k..]);
      assert b + rest == b[..k] + (b[k..] + rest);
      ReadsDecode(pb, e, vs[0], b[..k], b[k..] + rest);
      ItemsReadDecode(pb, e, vs[1..], acc + [vs[0]], b[k..], rest);
      assert acc + [vs[0]] + vs[1..] == acc + vs;
    }
  }

  /** The reader succeeds exactly on inputs that start with bytes a value can be read from; it gives that
      value and leaves what follows. */
  lemma ReadsExactly<M>(pb: Codec<M>, t: Ty, v: Val<M>, input: seq<byte>, rest: seq<byte>)
    ensures Decode(pb, t, input) == Some((v, rest)) <==> exists b :: input == b + rest && Reads(pb, t, v, b)
  {
    hide Decode, Reads;
    if Decode(pb, t, input) == Some((v, rest)) {
      DecodeReads(pb, t, input);
      var k := |input| - |rest|;
      assert input == input[..k] + rest && Reads(pb, t, v, input[..k]);
    }
    if b :| input == b + rest && Reads(pb, t, v, b) {
      ReadsDecode(pb, t, v, b, rest);
    }
  }

  /** No value can be read from the start of the input. */
  ghost predicate Unreadable<M(!new)>(pb: Codec<M>, t: Ty, input: seq<byte>) {
    forall v, b, rest :: Reads(pb, t, v, b) ==> input != b + rest
  }

  lemma ReadsOrFails<M(!new)>(pb: Codec<M>, t: Ty, input: seq<byte>)
    ensures match Decode(pb, t, input)
            case Some((v, rest)) => exists b :: input == b + rest && Reads(pb, t, v, b)
            case None => Unreadable(pb, t, input)
  {
    hide Decode, Reads;
    match Decode(pb, t, input)
    case Some((v, rest)) => ReadsExactly(pb, t, v, input, rest);
    case None =>
      forall v, b, rest | Reads(pb, t, v, b)
        ensures input != b + rest
      {
        ReadsDecode(pb, t, v, b, rest);
      }
  }

  // ---------- the streams ----------

  class OutStream {
    var bytes: seq<byte>

    constructor ()
      ensures bytes == []
    {
      bytes := [];
    }

    method Write(data: seq<byte>)
      modifies this
      ensures bytes == old(bytes) + data
    {
      bytes := bytes + data;
    }
  }

  class InStream {
    var rest: seq<byte>

    constructor (bytes: seq<byte>)
      ensures rest == bytes
    {
      rest := bytes;
    }

    method Read(n: nat) returns (r: Option<seq<byte>>)
      modifies this
      ensures match Take(n, old(rest))
              case None => r == None && rest == old(rest)
              case Some((d, tail)) => r == Some(d) && rest == tail
    {
      if n > |rest| {
        return None;
      }
      r := Some(rest[..n]);
      rest := rest[n..];
    }
  }

  /** `write_impl`. A value outside its type cannot be passed; what can still fail is
      serializing a message, and then the stream may hold part of the value. */
  method WriteImpl<M>(pb: Codec<M>, t: Ty, v: Val<M>, out: OutStream) returns (ok: bool)
    modifies out
    ensures ok == Encode(pb, t, v).Some?
    ensures ok ==> out.bytes == old(out.bytes) + Encode(pb, t, v).value
    ensures ok ==> exists b :: out.bytes == old(out.bytes) + b && Layout(pb, t, v, b)
    decreases t, 0
  {
    hide LittleEndian, FromLittleEndian, Layout;
    EncodingHasLayout(pb, t, v);
    ok := true;
    if Scalar(t) {
      if !InRange(t, v) {
        return false;
      }
      out.Write(LittleEndian(ToWord(t, v), Width(t)));
      return;
    }
    match (t, v)
    case (SString, Text(s)) =>
      out.Write(Prefix(|s|));
      out.Write(s);
    case (Message, Msg(m)) =>
      var d := pb.serialize(m);
      if d.None? {
        return false;
      }
      out.Write(Prefix(|d.value|));
      out.Write(d.value);
    case (Vector(e), Vec(items)) =>
      out.Write(Prefix(|items|));
      ok := WriteItems(pb, e, items, out);
    case _ =>
      return false;
  }

  method WriteItems<M>(pb: Codec<M>, e: Ty, vs: seq<Val<M>>, out: OutStream) returns (ok: bool)
    modifies out
    ensures ok == EncodeItems(pb, e, vs).Some?
    ensures ok ==> out.bytes == old(out.bytes) + EncodeItems(pb, e, vs).value
    decreases e, 1
  {
    hide Encode, Decode, EncodeItems;
    EncodeEnds(pb, e, vs);
    for i := 0 to |vs|
      invariant EncodeItems(pb, e, vs).Some? <==> EncodeItems(pb, e, vs[i..]).Some?
      invariant EncodeItems(pb, e, vs).Some? ==>
        old(out.bytes) + EncodeItems(pb, e, vs).value == out.bytes + EncodeItems(pb, e, vs[i..]).value
    {
      EncodeFrom(pb, e, vs, i);
      ghost var before := out.bytes;
      ok := WriteImpl(pb, e, vs[i], out);
      if !ok {
        return;
      }
      if EncodeItems(pb, e, vs[i..]).Some? {
        AppendTwo(before, Encode(pb, e, vs[i]).value, EncodeItems(pb, e, vs[i + 1..]).value);
      }
    }
    ok := true;
  }

  /** `read_impl`. None is the exception path. */
  method ReadImpl<M(!new)>(pb: Codec<M>, t: Ty, input: InStream) returns (r: Option<Val<M>>)
    modifies input
    ensures r.Some? == Decode(pb, t, old(input.rest)).Some?
    ensures r.Some? ==> Decode(pb, t, old(input.rest)) == Some((r.value, input.rest))
    ensures r.Some? ==> exists b :: old(input.rest) == b + input.rest && Reads(pb, t, r.value, b)
    ensures r.None? ==> Unreadable(pb, t, old(input.rest))
    decreases t, 0
  {
    hide LittleEndian, FromLittleEndian, Reads, Unreadable;
    ReadsOrFails(pb, t, input.rest);
    if Scalar(t) {
      var w := input.Read(Width(t));
      if w.None? {
        return None;
      }
      return Some(FromWord(t, FromLittleEndian(w.value)));
    }
    var p := input.Read(4);
    if p.None? {
      return None;
    }
    var n := FromLittleEndian(p.value);
    if t.Vector? {
      var vs := ReadItems(pb, t.elem, n, input);
      return match vs case None => None case Some(items) => Some(Vec(items));
    }
    var d := input.Read(n);
    if d.None? {
      return None;
    }
    if t.SString? {
      return Some(Text(d.value));
    }
    match pb.parse(d.value)
    case None => return None;
    case Some(m) => return Some(Msg(m));
  }

  method ReadItems<M(!new)>(pb: Codec<M>, e: Ty, n: nat, input: InStream) returns (r: Option<seq<Val<M>>>)
    modifies input
    ensures r.Some? == DecodeItems(pb, e, n, [], old(input.rest)).Some?
    ensures r.Some? ==> DecodeItems(pb, e, n, [], old(input.rest)) == Some((r.value, input.rest))
    decreases e, 1
  {
    hide Decode;
    var vs: seq<Val<M>> := [];
    for i := 0 to n
      invariant DecodeItems(pb, e, n, [], old(input.rest)) == DecodeItems(pb, e, n - i, vs, input.rest)
    {
      var v := ReadImpl(pb, e, input);
      if v.None? {
        return None;
      }
      vs := vs + [v.value];
    }
    r := Some(vs);
  }

  /** Writing a value and reading the stream back gives the value and uses the stream up. */
  method WriteThenRead<M(!new)>(pb: Codec<M>, t: Ty, v: Val<M>) returns (r: Option<Val<M>>, rest: seq<byte>)
    requires Faithful(pb) && Sized(v) && Encode(pb, t, v).Some?
    ensures r == Some(v) && rest == []
  {
    var out := new OutStream();
    var ok := WriteImpl(pb, t, v, out);
    var input := new InStream(out.bytes);
    assert out.bytes == Encode(pb, t, v).value + [];
    RoundTrip(pb, t, v, []);
    r := ReadImpl(pb, t, input);
    rest := input.rest;
  }
}
