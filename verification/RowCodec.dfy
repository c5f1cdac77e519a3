/** Rows as bytes: Serialize and Deserialize of the storage layer. */
module RowCodec {
  import opened Core
  import opened Bytes
  import opened Sequences

  const NULL_TAG: Byte := 255

  function Tag(t: ColumnType): Byte {
    match t
    case TypeInt => 0
    case TypeText => 1
    case TypeBool => 2
  }

  function EncodeValue(v: Value): (b: seq<Byte>)
    ensures |b| >= 1
  {
    match v
    case Null(_) => [NULL_TAG]
    case Int(i) => [Tag(TypeInt)] + Put(ToUnsigned(i), 8)
    case Bool(x) => [Tag(TypeBool), if x then 1 else 0]
    case Text(s) => [Tag(TypeText)] + Put(|s| % 0x1_0000, 2) + s
  }

  function EncodeValues(vs: seq<Value>): (b: seq<Byte>) {
    if vs == [] then [] else EncodeValues(vs[..|vs| - 1]) + EncodeValue(vs[|vs| - 1])
  }

  function Encode(row: Row): (b: seq<Byte>) {
    Put(row.xmin, 8) + Put(row.xmax, 8) + EncodeValues(row.values)
  }

  function Cons(v: Value, r: Option<seq<Value>>): Option<seq<Value>> {
    if r.None? then None else Some([v] + r.value)
  }

  /** The value at the head of a byte string and the bytes it takes. */
  datatype Piece = Overrun | Skip | Take(v: Value, n: nat)

  /** Overrun: the value runs past the end.  Skip: a tag that is not a known one. */
  function NextValue(b: seq<Byte>): (r: Piece)
    requires b != []
    ensures r.Take? ==> 1 <= r.n <= |b|
  {
    if b[0] == NULL_TAG then Take(Null(TypeInt), 1)
    else if b[0] == Tag(TypeInt) then
      if |b| < 9 then Overrun else Take(Int(ToSigned(U64(b, 1))), 9)
    else if b[0] == Tag(TypeBool) then
      if |b| < 2 then Overrun else Take(Bool(b[1] == 1), 2)
    else if b[0] == Tag(TypeText) then
      if |b| < 3 || |b| < 3 + U16(b, 1) then Overrun
      else Take(Text(b[3..3 + U16(b, 1)]), 3 + U16(b, 1))
    else Skip
  }

  function DecodeValues(b: seq<Byte>): (r: Option<seq<Value>>)
    decreases |b|
  {
    if b == [] then Some([])
    else match NextValue(b)
      case Overrun => None
      case Skip => DecodeValues(b[1..])
      case Take(v, n) => Cons(v, DecodeValues(b[n..]))
  }

  function Decode(b: seq<Byte>): (r: Option<Row>) {
    if |b| < 16 then None
    else
      var vs := DecodeValues(b[16..]);
      if vs.None? then None else Some(Row(vs.value, U64(b, 0), U64(b, 8)))
  }

  /** What survives a round trip of one value: a NULL loses its type tag. */
  function Untagged(v: Value): Value {
    if v.Null? then Null(TypeInt) else v
  }

  function UntaggedRow(row: Row): (r: Row)
    ensures |r.values| == |row.values| && r.xmin == row.xmin && r.xmax == row.xmax
    ensures forall i :: 0 <= i < |r.values| ==> r.values[i] == Untagged(row.values[i])
  {
    row.(values := seq(|row.values|, i requires 0 <= i < |row.values| => Untagged(row.values[i])))
  }

  /** Every text is short enough for its 16-bit length. */
  predicate ShortTexts(vs: seq<Value>) {
    forall i :: 0 <= i < |vs| && vs[i].Text? ==> |vs[i].s| < 0x1_0000
  }

  // ---------------------------------------------------------------------
  // Round trip
  // ---------------------------------------------------------------------

  lemma {:induction false} Get16(x: nat)
    requires x < 0x1_0000
    ensures U16(Put(x, 2), 0) == x
  {
    assert Put(x, 2) == [x % 256] + Put(x / 256, 1);
    assert Put(x / 256, 1) == [x / 256 % 256] + Put(x / 256 / 256, 0);
  }

  /** The layout of an encoded text: its tag, the length modulo 65536, its bytes. */
  lemma {:induction false} TextLayout(s: seq<Byte>, rest: seq<Byte>)
    ensures var b, n := EncodeValue(Text(s)) + rest, |s| % 0x1_0000;
            |b| == 3 + |s| + |rest| && b[0] == Tag(TypeText) && U16(b, 1) == n && b[3..] == s + rest
  {
    var n := |s| % 0x1_0000;
    Get16(n);
    var head := [Tag(TypeText)] + Put(n, 2);
    Assoc(head, s, rest);
    hide Put;
    var b := head + (s + rest);
    assert b[0] == head[0] && b[1] == head[1] && b[2] == head[2];
  }

  lemma {:induction false} TextPiece(b: seq<Byte>, s: seq<Byte>, rest: seq<Byte>)
    requires |b| == 3 + |s| + |rest| && b[0] == Tag(TypeText) && U16(b, 1) == |s| % 0x1_0000 && b[3..] == s + rest
    ensures var n := |s| % 0x1_0000;
            NextValue(b) == Take(Text(s[..n]), 3 + n) && b[3 + n..] == s[n..] + rest
  {
    var n := |s| % 0x1_0000;
    hide U16;
    assert b[3..3 + n] == b[3..][..n] == s[..n];
    assert b[3 + n..] == b[3..][n..];
    assert (s + rest)[n..] == s[n..] + rest;
  }

  /** Decoding a text takes the length modulo 65536. */
  lemma {:induction false} DecodeText(s: seq<Byte>, rest: seq<Byte>)
    ensures var n := |s| % 0x1_0000;
            DecodeValues(EncodeValue(Text(s)) + rest) == Cons(Text(s[..n]), DecodeValues(s[n..] + rest))
  {
    hide NextValue, EncodeValue, U16;
    TextLayout(s, rest);
    TextPiece(EncodeValue(Text(s)) + rest, s, rest);
  }

  lemma {:induction false} NextInt(i: Int64, rest: seq<Byte>)
    ensures NextValue(EncodeValue(Int(i)) + rest) == Take(Int(i), 9)
  {
    var b := EncodeValue(Int(i)) + rest;
    GetPut64(ToUnsigned(i));
    assert b[1..9] == Put(ToUnsigned(i), 8);
  }

  lemma {:induction false} NextSmall(v: Value, rest: seq<Byte>)
    requires v.Null? || v.Bool?
    ensures NextValue(EncodeValue(v) + rest) == Take(Untagged(v), |EncodeValue(v)|)
  {
    hide U16, U64;
  }

  lemma {:induction false} DecodeStep(e: seq<Byte>, rest: seq<Byte>, v: Value)
    requires e != [] && NextValue(e + rest) == Take(v, |e|)
    ensures DecodeValues(e + rest) == Cons(v, DecodeValues(rest))
  {
    hide NextValue;
    assert (e + rest)[|e|..] == rest;
  }

  lemma {:induction false} DecodeShortText(s: seq<Byte>, rest: seq<Byte>)
    requires |s| < 0x1_0000
    ensures DecodeValues(EncodeValue(Text(s)) + rest) == Cons(Text(s), DecodeValues(rest))
  {
    hide DecodeValues, EncodeValue, Cons;
    DecodeText(s, rest);
    var n := |s| % 0x1_0000;
    assert n == |s|;
    assert s[..n] == s;
    assert s[n..] + rest == rest;
  }

  lemma {:induction false} DecodeInt(i: Int64, rest: seq<Byte>)
    ensures DecodeValues(EncodeValue(Int(i)) + rest) == Cons(Int(i), DecodeValues(rest))
  {
    assert |EncodeValue(Int(i))| == 9;
    hide DecodeValues, EncodeValue, NextValue, Cons;
    NextInt(i, rest);
    DecodeStep(EncodeValue(Int(i)), rest, Int(i));
  }

  lemma {:induction false} DecodeOne(v: Value, rest: seq<Byte>)
    requires v.Text? ==> |v.s| < 0x1_0000
    ensures DecodeValues(EncodeValue(v) + rest) == Cons(Untagged(v), DecodeValues(rest))
  {
    hide DecodeValues, EncodeValue, NextValue, Cons;
    match v
    case Text(s) => DecodeShortText(s, rest);
    case Int(i) => DecodeInt(i, rest);
    case _ =>
      NextSmall(v, rest);
      DecodeStep(EncodeValue(v), rest, Untagged(v));
  }

  function Append(vs: seq<Value>, r: Option<seq<Value>>): Option<seq<Value>> {
    if r.None? then None else Some(vs + r.value)
  }

  lemma {:induction false} AppendNothing(r: Option<seq<Value>>)
    ensures Append([], r) == r
  {
    if r.Some? {
      assert [] + r.value == r.value;
    }
  }

  lemma {:induction false} AppendSnoc(vs: seq<Value>, v: Value, r: Option<seq<Value>>)
    ensures Append(vs, Cons(v, r)) == Append(vs + [v], r)
  {
    if r.Some? {
      Assoc(vs, [v], r.value);
    }
  }

  /** Decoding a prefix of short values and then the rest. */
  lemma {:induction false} DecodeMany(vs: seq<Value>, rest: seq<Byte>)
    requires ShortTexts(vs)
    ensures DecodeValues(EncodeValues(vs) + rest) == Append(UntaggedRow(Row(vs, 0, 0)).values, DecodeValues(rest))
    decreases |vs|
  {
    hide EncodeValue, DecodeValues, Append;
    if vs == [] {
      assert EncodeValues(vs) + rest == rest;
      assert UntaggedRow(Row(vs, 0, 0)).values == [];
      AppendNothing(DecodeValues(rest));
    } else {
      var init, v := vs[..|vs| - 1], vs[|vs| - 1];
      Assoc(EncodeValues(init), EncodeValue(v), rest);
      DecodeMany(init, EncodeValue(v) + rest);
      DecodeOne(v, rest);
      var us := UntaggedRow(Row(init, 0, 0)).values;
      AppendSnoc(us, Untagged(v), DecodeValues(rest));
      assert us + [Untagged(v)] == UntaggedRow(Row(vs, 0, 0)).values;
    }
  }

  lemma {:induction false} EncodeSplit(a: seq<Value>, b: seq<Value>)
    ensures EncodeValues(a + b) == EncodeValues(a) + EncodeValues(b)
    decreases |b|
  {
    hide EncodeValue;
    if b == [] {
      assert a + b == a;
    } else {
      var ab := a + b;
      assert ab[..|ab| - 1] == a + b[..|b| - 1] && ab[|ab| - 1] == b[|b| - 1];
      EncodeSplit(a, b[..|b| - 1]);
      Assoc(EncodeValues(a), EncodeValues(b[..|b| - 1]), EncodeValue(b[|b| - 1]));
    }
  }

  /** An overlong text is cut, so its value does not come back. */
  lemma {:induction false} LongTextIsLost(vs: seq<Value>, i: nat)
    requires i < |vs| && vs[i].Text? && |vs[i].s| >= 0x1_0000 && ShortTexts(vs[..i])
    ensures DecodeValues(EncodeValues(vs)) != Some(UntaggedRow(Row(vs, 0, 0)).values)
  {
    hide EncodeValue, DecodeValues;
    var a, s, b := vs[..i], vs[i].s, vs[i + 1..];
    var n := |s| % 0x1_0000;
    EncodeAround(vs, i);
    DecodeMany(a, EncodeValue(vs[i]) + EncodeValues(b));
    DecodeText(s, EncodeValues(b));
    var us := UntaggedRow(Row(a, 0, 0)).values;
    var tail := DecodeValues(s[n..] + EncodeValues(b));
    if tail.Some? {
      var got := us + ([Text(s[..n])] + tail.value);
      assert got[i] == Text(s[..n]);
      assert UntaggedRow(Row(vs, 0, 0)).values[i] == vs[i];
    }
  }

  lemma {:induction false} EncodeAround(vs: seq<Value>, i: nat)
    requires i < |vs|
    ensures EncodeValues(vs) == EncodeValues(vs[..i]) + (EncodeValue(vs[i]) + EncodeValues(vs[i + 1..]))
  {
    hide EncodeValue;
    var a, v, b := vs[..i], [vs[i]], vs[i + 1..];
    assert vs == a + (v + b);
    assert v[..0] == [] && [] + EncodeValue(vs[i]) == EncodeValue(vs[i]);
    assert EncodeValues(v) == EncodeValue(vs[i]);
    EncodeSplit(a, v + b);
    EncodeSplit(v, b);
  }

  lemma {:induction false} FirstLong(vs: seq<Value>) returns (i: nat)
    requires !ShortTexts(vs)
    ensures i < |vs| && vs[i].Text? && |vs[i].s| >= 0x1_0000 && ShortTexts(vs[..i])
    decreases |vs|
  {
    var init := vs[..|vs| - 1];
    if ShortTexts(init) {
      i := |vs| - 1;
    } else {
      i := FirstLong(init);
      assert init[..i] == vs[..i];
    }
  }

  lemma {:induction false} HeaderBack(row: Row)
    ensures var b := Encode(row);
            && |b| == 16 + |EncodeValues(row.values)|
            && U64(b, 0) == row.xmin && U64(b, 8) == row.xmax && b[16..] == EncodeValues(row.values)
  {
    var b := Encode(row);
    GetPut64(row.xmin);
    GetPut64(row.xmax);
    assert b[0..8] == Put(row.xmin, 8);
    assert b[8..16] == Put(row.xmax, 8);
  }

  /** Deserialize undoes Serialize, up to the type tag of NULLs, exactly for the rows
      whose texts are shorter than 65536 bytes. */
  lemma {:induction false} RoundTripIffShort(row: Row)
    ensures Decode(Encode(row)) == Some(UntaggedRow(row)) <==> ShortTexts(row.values)
  {
    HeaderBack(row);
    var vs := row.values;
    if ShortTexts(vs) {
      DecodeMany(vs, []);
      assert EncodeValues(vs) + [] == EncodeValues(vs);
      assert UntaggedRow(Row(vs, 0, 0)).values + [] == UntaggedRow(row).values;
    } else {
      var i := FirstLong(vs);
      LongTextIsLost(vs, i);
      assert UntaggedRow(Row(vs, 0, 0)).values == UntaggedRow(row).values;
    }
  }

  // ---------------------------------------------------------------------
  // Rows in pages
  // ---------------------------------------------------------------------

  lemma {:induction false} TextFits(vs: seq<Value>, i: nat)
    requires i < |vs| && vs[i].Text?
    ensures |EncodeValues(vs)| >= |vs[i].s| + 3
    decreases |vs|
  {
    if i < |vs| - 1 {
      TextFits(vs[..|vs| - 1], i);
    }
  }

  /** Any row whose bytes fit a page has only short texts, so it is stored faithfully. */
  lemma {:induction false} PageRowsAreShort(row: Row)
    requires |Encode(row)| <= 4088
    ensures ShortTexts(row.values) && Decode(Encode(row)) == Some(UntaggedRow(row))
  {
    forall i | 0 <= i < |row.values| && row.values[i].Text? ensures |row.values[i].s| < 0x1_0000 {
      TextFits(row.values, i);
    }
    RoundTripIffShort(row);
  }

  lemma {:induction false} UntaggedBytes(vs: seq<Value>)
    ensures EncodeValues(UntaggedRow(Row(vs, 0, 0)).values) == EncodeValues(vs)
    decreases |vs|
  {
    if vs != [] {
      var init := vs[..|vs| - 1];
      UntaggedBytes(init);
      assert UntaggedRow(Row(vs, 0, 0)).values[..|vs| - 1] == UntaggedRow(Row(init, 0, 0)).values;
    }
  }

  /** Reading a stored row, stamping another deleter and writing it back yields the
      bytes of the original row with that stamp, at the same length. */
  lemma {:induction false} StampInPlace(row: Row, xmax: UInt64)
    requires |Encode(row)| <= 4088
    ensures var stored := Decode(Encode(row));
            && stored.Some?
            && Encode(stored.value.(xmax := xmax)) == Encode(row.(xmax := xmax))
            && |Encode(row.(xmax := xmax))| == |Encode(row)|
  {
    PageRowsAreShort(row);
    UntaggedBytes(row.values);
    assert UntaggedRow(Row(row.values, 0, 0)).values == UntaggedRow(row).values;
  }

  // ---------------------------------------------------------------------
  // The loops
  // ---------------------------------------------------------------------

  method Serialize(row: Row) returns (buf: seq<Byte>)
    ensures buf == Encode(row)
  {
    buf := Put(row.xmin, 8) + Put(row.xmax, 8);
    ghost var header := buf;
    for k := 0 to |row.values|
      invariant buf == header + EncodeValues(row.values[..k])
    {
      Assoc(header, EncodeValues(row.values[..k]), EncodeValue(row.values[k]));
      buf := buf + EncodeValue(row.values[k]);
      assert row.values[..k + 1][..k] == row.values[..k];
    }
    assert row.values[..|row.values|] == row.values;
  }

  method Deserialize(data: seq<Byte>) returns (row: Option<Row>)
    ensures row == Decode(data)
  {
    if |data| < 16 {
      return None;
    }
    var xmin, xmax := U64(data, 0), U64(data, 8);
    var values: seq<Value> := [];
    var cursor := 16;
    AppendNothing(DecodeValues(data[16..]));
    while cursor < |data|
      invariant 16 <= cursor <= |data|
      invariant DecodeValues(data[16..]) == Append(values, DecodeValues(data[cursor..]))
    {
      hide NextValue, U16, U64;
      var step := NextValue(data[cursor..]);
      match step {
        case Overrun => return None;
        case Skip =>
          assert data[cursor..][1..] == data[cursor + 1..];
          cursor := cursor + 1;
        case Take(v, n) =>
          assert data[cursor..][n..] == data[cursor + n..];
          AppendSnoc(values, v, DecodeValues(data[cursor + n..]));
          values := values + [v];
          cursor := cursor + n;
      }
    }
    assert data[cursor..] == [] && values + [] == values;
    row := Some(Row(values, xmin, xmax));
  }
}
