/** Fixed-layout records: a byte array read and written through field descriptors. */
module Records {
  import opened Bytes
  import opened Numeric

  datatype Field = Field(offset: nat, length: nat)

  /** The two copies of `message<SIZE>` differ only in what set_int leaves in odd-sized fields. */
  datatype Dialect = Itch | Ouch

  predicate Fits(f: Field, size: nat) {
    f.offset + f.length <= size
  }

  function End(f: Field): (r: nat) {
    f.offset + f.length
  }

  /** No byte belongs to both fields. */
  predicate Apart(f: Field, g: Field) {
    || f.length == 0 || g.length == 0
    || f.offset + f.length <= g.offset || g.offset + g.length <= f.offset
  }

  function Slot(rec: bytes, f: Field): (s: bytes)
    requires Fits(f, |rec|)
    ensures |s| == f.length
  {
    rec[f.offset..f.offset + f.length]
  }

  function Put(rec: bytes, f: Field, s: bytes): (r: bytes)
    requires Fits(f, |rec|) && |s| == f.length
    ensures |r| == |rec| && Slot(r, f) == s
    ensures forall p :: 0 <= p < |rec| && !(f.offset <= p < f.offset + f.length) ==> r[p] == rec[p]
  {
    rec[..f.offset] + s + rec[f.offset + f.length..]
  }

  /** Put, byte by byte. */
  lemma PutIs(r: bytes, rec: bytes, f: Field, s: bytes)
    requires |r| == |rec| && Fits(f, |rec|) && |s| == f.length
    requires forall i :: 0 <= i < f.length ==> r[f.offset + i] == s[i]
    requires forall p :: 0 <= p < |rec| && !(f.offset <= p < End(f)) ==> r[p] == rec[p]
    ensures r == Put(rec, f, s)
  {
    forall p | 0 <= p < |r|
      ensures r[p] == Put(rec, f, s)[p]
    {
      if f.offset <= p < End(f) {
        assert r[f.offset + (p - f.offset)] == s[p - f.offset];
      }
    }
  }

  // ------------------------------------------------------------ integers

  predicate Swapped(length: nat) {
    length == 2 || length == 4 || length == 8
  }

  /** The bytes set_int copies out of its 8-byte temporary. */
  function IntBytes(d: Dialect, length: nat, v: int64): (s: bytes)
    requires length <= 8
    ensures |s| == length
  {
    if Swapped(length) then Store(Swap(v, length), length)
    else if d == Itch then Store(v, length)
    else Store(0, length)
  }

  /** The value get_int returns for a slot of 2, 4 or 8 bytes, and 0 for other sizes. */
  function IntValue(slot: bytes): (v: int64)
    ensures |slot| == 2 ==> 0 <= v < TWO16
  {
    LoadThenSwap(slot);
    BigEndianBound(slot);
    Pow256Values();
    if |slot| == 2 || |slot| == 4 then Swap(Load(slot), |slot|)
    else if |slot| == 8 then ToSigned(Swap(Load(slot), 8))
    else 0
  }

  /** What a field reads back after set_int, for every size. */
  lemma IntReadsBack(d: Dialect, length: nat, v: int64)
    requires length <= 8
    ensures IntValue(IntBytes(d, length, v)) ==
            if length == 8 then v else if Swapped(length) then v % Pow256(length) else 0
  {
    if Swapped(length) {
      SwapTwice(v, length);
      Pow256Values();
      if length == 8 {
        SignedRoundTrip(v);
      }
    }
  }

  lemma SwapTwice(v: int, n: nat)
    ensures Swap(Load(Store(Swap(v, n), n)), n) == v % Pow256(n)
  {
    SwapThenStore(v, n);
    LoadThenSwap(BigEndian(v, n));
    BigEndianRoundTrip(v, n);
  }

  lemma SignedRoundTrip(v: int64)
    ensures ToSigned(v % TWO64) == v
  {}

  lemma ReducedIff(v: int, p: nat)
    requires p > 0
    ensures v % p == v <==> 0 <= v < p
  {}

  /** Exactly when an integer field returns the number stored in it. The 6-byte ITCH
      timestamps fall in the last case: they read back as 0. */
  lemma IntRoundTripIff(d: Dialect, length: nat, v: int64)
    requires length <= 8
    ensures IntValue(IntBytes(d, length, v)) == v <==>
            if length == 8 then true else if Swapped(length) then 0 <= v < Pow256(length) else v == 0
  {
    IntReadsBack(d, length, v);
    ReducedIff(v, Pow256(length));
  }

  lemma {:induction false} StoreZero(n: nat)
    ensures Store(0, n) == Zeros(n)
    decreases n
  {
    if n > 0 {
      StoreZero(n - 1);
      assert [0] + Zeros(n - 1) == Zeros(n);
    }
  }

  /** On the wire, 2/4/8-byte integers are in network order; a 6-byte ITCH integer is not, and in OUCH
      any other size holds zeros. */
  lemma IntWireOrder(d: Dialect, length: nat, v: int64)
    requires length <= 8
    ensures Swapped(length) ==> IntBytes(d, length, v) == BigEndian(v, length)
    ensures d == Itch && !Swapped(length) ==> Reversed(IntBytes(d, length, v)) == BigEndian(v, length)
    ensures d == Ouch && !Swapped(length) ==> forall k :: 0 <= k < length ==> IntBytes(d, length, v)[k] == 0
  {
    SwapThenStore(v, length);
    StoreZero(length);
  }

  /** get_int on a slot of 2, 4 or 8 bytes: its number in network order, signed if it has 8. */
  lemma IntValueIs(slot: bytes)
    requires Swapped(|slot|)
    ensures BigEndianValue(slot) < Pow256(|slot|) <= TWO64
    ensures IntValue(slot) == if |slot| == 8 then ToSigned(BigEndianValue(slot)) else BigEndianValue(slot)
  {
    LoadThenSwap(slot);
    BigEndianBound(slot);
    Pow256Values();
  }

  // ------------------------------------------------------------ histories of writes

  datatype Write = IntWrite(index: nat, value: int64) | TextWrite(index: nat, text: bytes)

  predicate Writable(layout: seq<Field>, w: Write) {
    w.index < |layout| && (w.IntWrite? ==> layout[w.index].length <= 8)
  }

  predicate InBounds(layout: seq<Field>, size: nat) {
    forall i :: 0 <= i < |layout| ==> Fits(layout[i], size)
  }

  predicate Disjoint(layout: seq<Field>) {
    forall i, j :: 0 <= i < j < |layout| ==> Apart(layout[i], layout[j])
  }

  /** What one write puts into its slot. */
  function Written(d: Dialect, layout: seq<Field>, w: Write): (s: bytes)
    requires Writable(layout, w)
    ensures |s| == layout[w.index].length
  {
    match w
    case IntWrite(i, v) => IntBytes(d, layout[i].length, v)
    case TextWrite(i, t) => StrnCpy(t, layout[i].length)
  }

  function ApplyWrite(d: Dialect, layout: seq<Field>, rec: bytes, w: Write): (r: bytes)
    requires Writable(layout, w) && InBounds(layout, |rec|)
    ensures |r| == |rec|
  {
    Put(rec, layout[w.index], Written(d, layout, w))
  }

  function ApplyWrites(d: Dialect, layout: seq<Field>, rec: bytes, ws: seq<Write>): (r: bytes)
    requires InBounds(layout, |rec|) && forall w :: w in ws ==> Writable(layout, w)
    ensures |r| == |rec|
  {
    if ws == [] then rec
    else ApplyWrite(d, layout, ApplyWrites(d, layout, rec, ws[..|ws| - 1]), ws[|ws| - 1])
  }

  datatype Last = Untouched | By(write: Write)

  /** The abstract map: the last write to field i. */
  function LastWrite(ws: seq<Write>, i: nat): (r: Last)
    ensures r.By? ==> r.write in ws && r.write.index == i
  {
    if ws == [] then Untouched
    else if ws[|ws| - 1].index == i then By(ws[|ws| - 1])
    else LastWrite(ws[..|ws| - 1], i)
  }

  /** No other field shares a byte with field i. */
  predicate Alone(layout: seq<Field>, i: nat)
    requires i < |layout|
  {
    forall j :: 0 <= j < |layout| && j != i ==> Apart(layout[i], layout[j])
  }

  lemma DisjointAlone(layout: seq<Field>, i: nat)
    requires Disjoint(layout) && i < |layout|
    ensures Alone(layout, i)
  {
    forall j | 0 <= j < |layout| && j != i
      ensures Apart(layout[i], layout[j])
    {
      var lo, hi := if j < i then j else i, if j < i then i else j;
      assert Apart(layout[lo], layout[hi]);
    }
  }

  /** A field that shares no byte with another holds its last-written value, after any writes to any
      fields. On a disjoint layout that is every field: the record is a map. */
  lemma {:induction false} RecordRefinesMap(d: Dialect, layout: seq<Field>, rec: bytes, ws: seq<Write>, i: nat)
    requires InBounds(layout, |rec|) && i < |layout| && Alone(layout, i)
    requires forall w :: w in ws ==> Writable(layout, w)
    ensures Slot(ApplyWrites(d, layout, rec, ws), layout[i]) ==
            match LastWrite(ws, i)
            case Untouched => Slot(rec, layout[i])
            case By(w) => Written(d, layout, w)
  {
    if ws != [] {
      RecordRefinesMap(d, layout, rec, ws[..|ws| - 1], i);
      if ws[|ws| - 1].index != i {
        OtherWrite(d, layout, ApplyWrites(d, layout, rec, ws[..|ws| - 1]), ws[|ws| - 1], i);
      }
    }
  }

  lemma OtherWrite(d: Dialect, layout: seq<Field>, rec: bytes, w: Write, i: nat)
    requires InBounds(layout, |rec|) && i < |layout| && Alone(layout, i) && Writable(layout, w) && w.index != i
    ensures Slot(ApplyWrite(d, layout, rec, w), layout[i]) == Slot(rec, layout[i])
  {
    assert Apart(layout[i], layout[w.index]);
    SlotUntouched(rec, layout[w.index], Written(d, layout, w), layout[i]);
  }

  lemma SlotUntouched(rec: bytes, f: Field, s: bytes, g: Field)
    requires Fits(f, |rec|) && Fits(g, |rec|) && |s| == f.length && Apart(f, g)
    ensures Slot(Put(rec, f, s), g) == Slot(rec, g)
  {
    var r := Put(rec, f, s);
    assert forall k :: 0 <= k < g.length ==> Slot(r, g)[k] == r[g.offset + k];
  }

  /** Bytes covered by no field never change. */
  lemma {:induction false} GapsUntouched(d: Dialect, layout: seq<Field>, rec: bytes, ws: seq<Write>, p: nat)
    requires InBounds(layout, |rec|) && p < |rec|
    requires forall w :: w in ws ==> Writable(layout, w)
    requires forall f :: f in layout ==> !(f.offset <= p < f.offset + f.length)
    ensures ApplyWrites(d, layout, rec, ws)[p] == rec[p]
  {
    if ws != [] {
      var ws', w := ws[..|ws| - 1], ws[|ws| - 1];
      assert w in ws && layout[w.index] in layout;
      GapsUntouched(d, layout, rec, ws', p);
      var f, before := layout[w.index], ApplyWrites(d, layout, rec, ws');
      assert Put(before, f, Written(d, layout, w))[p] == before[p];
    }
  }

  /** After ws, field i does not hold its last-written value. */
  ghost predicate LosesWrite(d: Dialect, layout: seq<Field>, rec: bytes, ws: seq<Write>, i: nat) {
    && InBounds(layout, |rec|) && i < |layout|
    && (forall w :: w in ws ==> Writable(layout, w))
    && LastWrite(ws, i).By?
    && Slot(ApplyWrites(d, layout, rec, ws), layout[i]) != Written(d, layout, LastWrite(ws, i).write)
  }

  /** Disjointness is necessary: two fields that share a byte make a pair of writes after which
      the first field no longer holds its last-written value. */
  lemma OverlapBreaksMap(d: Dialect, layout: seq<Field>, rec: bytes, i: nat, j: nat) returns (ws: seq<Write>)
    requires InBounds(layout, |rec|) && i < |layout| && j < |layout| && i != j
    requires !Apart(layout[i], layout[j])
    ensures LosesWrite(d, layout, rec, ws, i)
  {
    var s, t := Uniform(layout[i].length, 1), Uniform(layout[j].length, 2);
    UniformText(layout[i].length, 1);
    UniformText(layout[j].length, 2);
    ws := [TextWrite(i, s), TextWrite(j, t)];
    PairLosesWrite(d, layout, rec, TextWrite(i, s), TextWrite(j, t));
  }

  /** Exactly which fields can lose a write: those that share a byte with another field. */
  lemma LosesWriteIff(d: Dialect, layout: seq<Field>, rec: bytes, i: nat)
    requires InBounds(layout, |rec|) && i < |layout|
    ensures (exists ws :: LosesWrite(d, layout, rec, ws, i)) <==> !Alone(layout, i)
  {
    if Alone(layout, i) {
      forall ws | (forall w :: w in ws ==> Writable(layout, w))
        ensures !LosesWrite(d, layout, rec, ws, i)
      {
        RecordRefinesMap(d, layout, rec, ws, i);
      }
    } else {
      var j :| 0 <= j < |layout| && j != i && !Apart(layout[i], layout[j]);
      var ws := OverlapBreaksMap(d, layout, rec, i, j);
    }
  }

  lemma PairLosesWrite(d: Dialect, layout: seq<Field>, rec: bytes, a: Write, b: Write)
    requires InBounds(layout, |rec|) && Writable(layout, a) && Writable(layout, b)
    requires a.index != b.index && !Apart(layout[a.index], layout[b.index])
    requires forall p, q :: 0 <= p < layout[a.index].length && 0 <= q < layout[b.index].length ==>
               Written(d, layout, a)[p] != Written(d, layout, b)[q]
    ensures LosesWrite(d, layout, rec, [a, b], a.index)
  {
    TwoWrites(d, layout, rec, a, b);
    assert forall w :: w in [a, b] ==> w == a || w == b;
    PutOverlap(rec, layout[a.index], Written(d, layout, a), layout[b.index], Written(d, layout, b));
  }

  lemma PutOverlap(rec: bytes, f: Field, s: bytes, g: Field, t: bytes)
    requires Fits(f, |rec|) && Fits(g, |rec|) && |s| == f.length && |t| == g.length && !Apart(f, g)
    requires forall i, j :: 0 <= i < |s| && 0 <= j < |t| ==> s[i] != t[j]
    ensures Slot(Put(Put(rec, f, s), g, t), f) != s
  {
    var p := if f.offset <= g.offset then g.offset else f.offset;
    var r := Put(Put(rec, f, s), g, t);
    assert Slot(r, g)[p - g.offset] == r[p] == Slot(r, f)[p - f.offset];
    assert t[p - g.offset] != s[p - f.offset];
  }

  lemma TwoWrites(d: Dialect, layout: seq<Field>, rec: bytes, a: Write, b: Write)
    requires InBounds(layout, |rec|) && Writable(layout, a) && Writable(layout, b)
    requires a.index != b.index
    ensures ApplyWrites(d, layout, rec, [a, b]) == ApplyWrite(d, layout, ApplyWrite(d, layout, rec, a), b)
    ensures LastWrite([a, b], a.index) == By(a)
  {
    assert [a, b][..1] == [a] && [a][..0] == [];
    assert ApplyWrites(d, layout, rec, []) == rec;
    assert LastWrite([a], a.index) == By(a);
  }

  function Uniform(n: nat, b: byte): (s: bytes)
    ensures |s| == n && forall k :: 0 <= k < n ==> s[k] == b
  {
    seq(n, _ => b)
  }

  lemma UniformText(n: nat, b: byte)
    requires b != 0
    ensures StrnCpy(Uniform(n, b), n) == Uniform(n, b)
  {
    CStringOfPadded(Uniform(n, b), []);
    assert Uniform(n, b) + [] == Uniform(n, b);
  }

  // ------------------------------------------------------------ the class

  /** `message<SIZE>`: the record, updated in place. */
  class FixedRecord {
    const dialect: Dialect
    const record: array<byte>

    constructor Blank(dialect: Dialect, size: nat, messageType: byte)
      requires size > 0
      ensures this.dialect == dialect && fresh(record)
      ensures record[..] == [messageType] + Zeros(size - 1)
    {
      this.dialect := dialect;
      record := new byte[size](i => if i == 0 then messageType else 0);
    }

    constructor FromBytes(dialect: Dialect, size: nat, source: bytes)
      requires size <= |source|
      ensures this.dialect == dialect && fresh(record)
      ensures record[..] == source[..size]
    {
      this.dialect := dialect;
      record := new byte[size](i requires 0 <= i < |source| => source[i]);
    }

    /** memcpy of a small buffer into the record. */
    method CopyIn(f: Field, s: bytes)
      requires Fits(f, record.Length) && |s| == f.length
      modifies record
      ensures record[..] == Put(old(record[..]), f, s)
    {
      var k := 0;
      while k < f.length
        invariant 0 <= k <= f.length
        invariant forall i :: 0 <= i < k ==> record[f.offset + i] == s[i]
        invariant forall p :: 0 <= p < record.Length && !(f.offset <= p < f.offset + k) ==> record[p] == old(record[p])
      {
        record[f.offset + k] := s[k];
        k := k + 1;
      }
      PutIs(record[..], old(record[..]), f, s);
    }

    method SetInt(f: Field, v: int64)
      requires Fits(f, record.Length) && f.length <= 8
      modifies record
      ensures record[..] == Put(old(record[..]), f, IntBytes(dialect, f.length, v))
    {
      var tmp: int := if dialect == Itch then v else 0;
      match f.length {
        case 2 => tmp := Swap(v, 2);
        case 4 => tmp := Swap(v, 4);
        case 8 => tmp := Swap(v, 8);
        case _ =>
      }
      CopyIn(f, Store(tmp, f.length));
    }

    /** For a one-byte field of OUCH the source returns an address: any number. */
    method GetInt(f: Field) returns (v: int64)
      requires Fits(f, record.Length)
      ensures dialect == Itch || f.length != 1 ==> v == IntValue(Slot(record[..], f))
    {
      var raw := record[f.offset..f.offset + f.length];
      assert raw == Slot(record[..], f);
      LoadThenSwap(raw);
      BigEndianBound(raw);
      Pow256Values();
      match f.length {
        case 2 => v := Swap(Load(raw), 2);
        case 4 => v := Swap(Load(raw), 4);
        case 8 => v := ToSigned(Swap(Load(raw), 8));
        case _ => v := 0;
          if dialect == Ouch && f.length == 1 {
            v := *;
          }
      }
    }

    method SetString(f: Field, text: bytes)
      requires Fits(f, record.Length)
      modifies record
      ensures record[..] == Put(old(record[..]), f, StrnCpy(text, f.length))
    {
      CopyIn(f, StrnCpy(text, f.length));
    }

    /** strncpy into a zeroed local buffer, read as a C string. */
    method GetString(f: Field) returns (text: bytes)
      requires Fits(f, record.Length)
      ensures text == CString(Slot(record[..], f))
    {
      text := CString(record[f.offset..f.offset + f.length]);
      assert Slot(record[..], f) == record[f.offset..f.offset + f.length];
    }
  }
}
