/** OUCH messages: a fixed record plus appendages, a growing list of tagged values whose total
    size is kept in a two-byte field of the record. */
module Ouch {
  import opened Bytes
  import opened Numeric
  import opened Records
  import opened Layouts

  type Tag = t: int | 0 <= t <= 18

  const TAG_LENGTHS: seq<nat> := [0, 8, 4, 4, 1, 4, 1, 4, 0, 8, 1, 4, 1, 4, 4, 4, 1, 1, 1]

  function TagLength(t: Tag): (n: nat)
    ensures n <= 8
  {
    TAG_LENGTHS[t]
  }

  /** What fits behind a one-byte length that also counts the tag. */
  type Data = s: bytes | |s| < 255

  datatype Entry = Entry(tag: byte, value: Data)

  function EntryBytes(e: Entry): (r: bytes) {
    [|e.value| + 1, e.tag] + e.value
  }

  function Flatten(es: seq<Entry>): (r: bytes) {
    if es == [] then [] else EntryBytes(es[0]) + Flatten(es[1..])
  }

  lemma {:induction false} FlattenConcat(a: seq<Entry>, b: seq<Entry>)
    ensures Flatten(a + b) == Flatten(a) + Flatten(b)
  {
    if a == [] {
      assert a + b == b;
    } else {
      FlattenConcat(a[1..], b);
      assert (a + b)[1..] == a[1..] + b;
    }
  }

  // ------------------------------------------------------------ building

  datatype Message = Message(record: bytes, tags: bytes)

  predicate HasLength(record: bytes, f: Field) {
    Fits(f, |record|) && f.length == 2
  }

  function AppendageLength(record: bytes, f: Field): (n: nat)
    requires HasLength(record, f)
    ensures n < TWO16
  {
    IntValue(Slot(record, f))
  }

  /** The stored length tells the size of the buffer. */
  predicate Valid(m: Message, f: Field) {
    HasLength(m.record, f) && |m.tags| == AppendageLength(m.record, f)
  }

  function IntEntry(t: Tag, v: int64): (r: Entry) {
    Entry(t, IntBytes(Itch, TagLength(t), v))
  }

  /** memcpy takes TagLength(t) bytes of the C string, its NUL included. */
  predicate LongEnough(t: Tag, text: bytes) {
    TagLength(t) <= |text| + 1
  }

  function TextEntry(t: Tag, text: bytes): (r: Entry)
    requires LongEnough(t, text)
  {
    Entry(t, (text + [0])[..TagLength(t)])
  }

  /** How many undetermined bytes realloc leaves below n. */
  function GapLength(tags: bytes, n: nat): (k: nat) {
    if n <= |tags| then 0 else n - |tags|
  }

  /** The first n bytes after a realloc: the old ones as far as they go, then `gap`. */
  function Kept(tags: bytes, n: nat, gap: bytes): (r: bytes)
    requires |gap| == GapLength(tags, n)
    ensures |r| == n && (n == |tags| ==> r == tags)
  {
    if n <= |tags| then tags[..n] else tags + gap
  }

  predicate FitsGap(m: Message, f: Field, gap: bytes) {
    HasLength(m.record, f) && |gap| == GapLength(m.tags, AppendageLength(m.record, f))
  }

  /** add_tag_value, on any message. The entry goes where the stored length says; only if that is the
      size of the buffer is it an append. */
  function AddEntry(m: Message, f: Field, e: Entry, gap: bytes): (m': Message)
    requires FitsGap(m, f, gap)
    ensures |m'.record| == |m.record| && HasLength(m'.record, f)
    ensures (Valid(m, f) ==> gap == [] && m'.tags == m.tags + EntryBytes(e))
  {
    var n := AppendageLength(m.record, f);
    Message(Put(m.record, f, IntBytes(Ouch, 2, n + 2 + |e.value|)), Kept(m.tags, n, gap) + EntryBytes(e))
  }

  /** Whatever it was before, the stored length is the buffer's size after an add exactly when that is
      below 2^16; otherwise the two disagree from then on. */
  lemma AddKeepsValidIff(m: Message, f: Field, e: Entry, gap: bytes)
    requires FitsGap(m, f, gap)
    ensures Valid(AddEntry(m, f, e, gap), f) <==> AppendageLength(m.record, f) + 2 + |e.value| < TWO16
  {
    var size := AppendageLength(m.record, f) + 2 + |e.value|;
    IntRoundTripIff(Ouch, 2, size);
    Pow256Values();
    assert Slot(AddEntry(m, f, e, gap).record, f) == IntBytes(Ouch, 2, size);
  }

  datatype Step =
    | AddInt(tag: Tag, value: int64)
    | AddText(tag: Tag, text: bytes)
    | SetField(write: Write)

  /** The caller's side: no write to a field that shares a byte with the length field, and no string
      shorter than memcpy reads. */
  predicate Allowed(layout: seq<Field>, a: nat, s: Step)
    requires a < |layout|
  {
    match s
    case AddInt(_, _) => true
    case AddText(t, text) => LongEnough(t, text)
    case SetField(w) => Writable(layout, w) && Apart(layout[w.index], layout[a])
  }

  predicate OuchLayout(layout: seq<Field>, a: nat, size: nat) {
    InBounds(layout, size) && a < |layout| && layout[a].length == 2
  }

  /** Every table with an appendage length is one; and in all of them but order_accepted the other
      fields may all be written. */
  lemma AppendageTables()
    ensures OuchLayout(OUCH_ENTER_ORDER.fields, 12, OUCH_ENTER_ORDER.size) && Alone(OUCH_ENTER_ORDER.fields, 12)
    ensures OuchLayout(OUCH_REPLACE_ORDER.fields, 9, OUCH_REPLACE_ORDER.size) && Alone(OUCH_REPLACE_ORDER.fields, 9)
    ensures OuchLayout(OUCH_ORDER_REPLACED.fields, 16, OUCH_ORDER_REPLACED.size)
    ensures Alone(OUCH_ORDER_REPLACED.fields, 16)
    ensures OuchLayout(OUCH_ORDER_EXECUTED.fields, 7, OUCH_ORDER_EXECUTED.size) && Alone(OUCH_ORDER_EXECUTED.fields, 7)
    ensures OuchLayout(OUCH_ORDER_RESTATED.fields, 4, OUCH_ORDER_RESTATED.size) && Alone(OUCH_ORDER_RESTATED.fields, 4)
    ensures OuchLayout(OUCH_ORDER_ACCEPTED.fields, 15, OUCH_ORDER_ACCEPTED.size)
    ensures forall i :: 0 <= i < |OUCH_ORDER_ACCEPTED.fields| ==>
              (Apart(OUCH_ORDER_ACCEPTED.fields[i], OUCH_ORDER_ACCEPTED.fields[15]) <==> i != 9 && i != 15)
  {
    TableWithAppendage(OUCH_ENTER_ORDER, 12);
    TableWithAppendage(OUCH_REPLACE_ORDER, 9);
    TableWithAppendage(OUCH_ORDER_REPLACED, 16);
    TableWithAppendage(OUCH_ORDER_EXECUTED, 7);
    TableWithAppendage(OUCH_ORDER_RESTATED, 4);
    OverlapsOfOrderAccepted(15);
  }

  lemma TableWithAppendage(l: MapLayout, a: nat)
    requires a < |l.fields| && l.fields[a].length == 2
    ensures OuchLayout(l.fields, a, l.size) && Alone(l.fields, a)
  {
    CheckedLayoutIsMap(l);
    DisjointAlone(l.fields, a);
  }

  function Apply(layout: seq<Field>, a: nat, m: Message, s: Step): (r: Message)
    requires OuchLayout(layout, a, |m.record|) && Valid(m, layout[a]) && Allowed(layout, a, s)
  {
    match s
    case AddInt(t, v) => AddEntry(m, layout[a], IntEntry(t, v), [])
    case AddText(t, text) => AddEntry(m, layout[a], TextEntry(t, text), [])
    case SetField(w) => m.(record := ApplyWrite(Ouch, layout, m.record, w))
  }

  function EntriesOf(layout: seq<Field>, a: nat, s: Step): (es: seq<Entry>)
    requires a < |layout| && Allowed(layout, a, s)
  {
    match s
    case AddInt(t, v) => [IntEntry(t, v)]
    case AddText(t, text) => [TextEntry(t, text)]
    case SetField(_) => []
  }

  function WritesOf(s: Step): (r: seq<Write>) {
    if s.SetField? then [s.write] else []
  }

  /** The abstract list: what the adds of a history put into it, in order. */
  function Entries(layout: seq<Field>, a: nat, steps: seq<Step>): (es: seq<Entry>)
    requires a < |layout| && forall s :: s in steps ==> Allowed(layout, a, s)
  {
    if steps == [] then []
    else Entries(layout, a, steps[..|steps| - 1]) + EntriesOf(layout, a, steps[|steps| - 1])
  }

  /** The field writes of a history, in order. */
  function FieldWrites(steps: seq<Step>): (r: seq<Write>) {
    if steps == [] then [] else FieldWrites(steps[..|steps| - 1]) + WritesOf(steps[|steps| - 1])
  }

  /** A message represents a list of entries and a history of field writes: the appendages are the
      entries, the length field is their size, and outside it the record is as written. */
  ghost predicate Represents(layout: seq<Field>, a: nat, blank: bytes, m: Message, es: seq<Entry>, ws: seq<Write>) {
    && OuchLayout(layout, a, |blank|) && |m.record| == |blank|
    && (forall w :: w in ws ==> Writable(layout, w))
    && m.tags == Flatten(es) && AppendageLength(m.record, layout[a]) == |m.tags|
    && forall p :: 0 <= p < |blank| && !(layout[a].offset <= p < End(layout[a])) ==>
         m.record[p] == ApplyWrites(Ouch, layout, blank, ws)[p]
  }

  lemma AddRepresents(layout: seq<Field>, a: nat, blank: bytes, m: Message, es: seq<Entry>, ws: seq<Write>, e: Entry)
    requires Represents(layout, a, blank, m, es, ws)
    requires |Flatten(es + [e])| < TWO16
    ensures Represents(layout, a, blank, AddEntry(m, layout[a], e, []), es + [e], ws)
  {
    assert Flatten([e]) == EntryBytes(e) + Flatten([]);
    FlattenConcat(es, [e]);
    AddKeepsValidIff(m, layout[a], e, []);
  }

  lemma SetRepresents(layout: seq<Field>, a: nat, blank: bytes, m: Message, es: seq<Entry>, ws: seq<Write>, w: Write)
    requires Represents(layout, a, blank, m, es, ws) && Writable(layout, w) && Apart(layout[w.index], layout[a])
    ensures Represents(layout, a, blank, m.(record := ApplyWrite(Ouch, layout, m.record, w)), es, ws + [w])
  {
    var f, s := layout[w.index], Written(Ouch, layout, w);
    SlotUntouched(m.record, f, s, layout[a]);
    assert (ws + [w])[..|ws|] == ws;
    PutPointwise(m.record, ApplyWrites(Ouch, layout, blank, ws), f, s);
  }

  /** The same Put on two records leaves them agreeing wherever they agreed. */
  lemma PutPointwise(r: bytes, r': bytes, f: Field, s: bytes)
    requires |r| == |r'| && Fits(f, |r|) && |s| == f.length
    ensures forall p :: 0 <= p < |r| && r[p] == r'[p] ==> Put(r, f, s)[p] == Put(r', f, s)[p]
  {}

  lemma StepRepresents(layout: seq<Field>, a: nat, blank: bytes, m: Message, es: seq<Entry>, ws: seq<Write>, s: Step)
    requires Represents(layout, a, blank, m, es, ws) && Allowed(layout, a, s)
    requires |Flatten(es + EntriesOf(layout, a, s))| < TWO16
    ensures Represents(layout, a, blank, Apply(layout, a, m, s), es + EntriesOf(layout, a, s), ws + WritesOf(s))
  {
    match s
    case AddInt(t, v) =>
      AddRepresents(layout, a, blank, m, es, ws, IntEntry(t, v));
      assert ws + [] == ws;
    case AddText(t, text) =>
      AddRepresents(layout, a, blank, m, es, ws, TextEntry(t, text));
      assert ws + [] == ws;
    case SetField(w) =>
      SetRepresents(layout, a, blank, m, es, ws, w);
      assert es + [] == es;
  }

  /** A whole history, from a blank message. Its contract is the refinement theorem. */
  function Run(layout: seq<Field>, a: nat, blank: bytes, steps: seq<Step>): (m: Message)
    requires OuchLayout(layout, a, |blank|) && Slot(blank, layout[a]) == [0, 0]
    requires forall s :: s in steps ==> Allowed(layout, a, s)
    requires |Flatten(Entries(layout, a, steps))| < TWO16
    ensures Represents(layout, a, blank, m, Entries(layout, a, steps), FieldWrites(steps))
    decreases |steps|
  {
    if steps == [] then
      BlankRepresents(layout, a, blank);
      Message(blank, [])
    else
      var init, s := steps[..|steps| - 1], steps[|steps| - 1];
      FlattenConcat(Entries(layout, a, init), EntriesOf(layout, a, s));
      var m := Run(layout, a, blank, init);
      StepRepresents(layout, a, blank, m, Entries(layout, a, init), FieldWrites(init), s);
      Apply(layout, a, m, s)
  }

  lemma BlankRepresents(layout: seq<Field>, a: nat, blank: bytes)
    requires OuchLayout(layout, a, |blank|) && Slot(blank, layout[a]) == [0, 0]
    ensures Represents(layout, a, blank, Message(blank, []), [], [])
  {
    LoadThenSwap([0, 0]);
    TwoBytes(0, 0, 0);
  }

  /** What a field of such a message reads that shares no byte with another: the last value written
      to it. */
  lemma FieldsOfRun(layout: seq<Field>, a: nat, blank: bytes, m: Message, es: seq<Entry>, ws: seq<Write>, i: nat)
    requires Represents(layout, a, blank, m, es, ws) && i < |layout| && i != a && Alone(layout, i)
    ensures Slot(m.record, layout[i]) ==
            match LastWrite(ws, i)
            case Untouched => Slot(blank, layout[i])
            case By(w) => Written(Ouch, layout, w)
  {
    assert Apart(layout[i], layout[a]);
    SlotsAgree(m.record, ApplyWrites(Ouch, layout, blank, ws), layout[i], layout[a]);
    RecordRefinesMap(Ouch, layout, blank, ws, i);
  }

  lemma SlotsAgree(r: bytes, r': bytes, f: Field, g: Field)
    requires |r| == |r'| && Fits(f, |r|) && Fits(g, |r|) && Apart(f, g) && g.length > 0
    requires forall p :: 0 <= p < |r| && !(g.offset <= p < End(g)) ==> r[p] == r'[p]
    ensures Slot(r, f) == Slot(r', f)
  {
    forall k | 0 <= k < f.length
      ensures Slot(r, f)[k] == Slot(r', f)[k]
    {
      assert r[f.offset + k] == r'[f.offset + k];
    }
  }

  // ------------------------------------------------------------ looking up

  /** How the scanning loop ends: at a position, past the end, or by reading outside the buffer. */
  datatype Scan = At(pos: nat) | NotFound | Outside

  function ScanFrom(tags: bytes, size: nat, tag: byte, pos: nat): (r: Scan)
    ensures r.At? ==> pos <= r.pos && r.pos + 1 < |tags| && tags[r.pos + 1] == tag
    decreases size - pos
  {
    if pos >= size then NotFound
    else if pos + 1 >= |tags| then Outside
    else if tags[pos + 1] == tag then At(pos)
    else ScanFrom(tags, size, tag, pos + tags[pos] + 1)
  }

  /** The first entry with the tag. */
  function FirstIndex(es: seq<Entry>, tag: byte): (k: nat)
    ensures k <= |es| && (k < |es| ==> es[k].tag == tag)
    ensures forall i :: 0 <= i < k ==> es[i].tag != tag
  {
    if es == [] || es[0].tag == tag then 0 else 1 + FirstIndex(es[1..], tag)
  }

  /** The loop only ever stands at the start of an entry, and stops at the first match, or at the first
      entry that does not begin below the stored length, whatever that is. If the stored length is more
      than there is and no entry matches, it reads outside the buffer. */
  lemma {:induction false} ScanFindsFirst(tags: bytes, before: bytes, es: seq<Entry>, tag: byte, size: nat)
    requires tags == before + Flatten(es)
    ensures var k := FirstIndex(es, tag);
            var pos := |before| + |Flatten(es[..k])|;
            ScanFrom(tags, size, tag, |before|) ==
            if pos >= size then NotFound else if k == |es| then Outside else At(pos)
    decreases |es|
  {
    if es != [] {
      ScanStep(tags, before, es[0], Flatten(es[1..]), tag, size);
      if es[0].tag == tag {
        assert es[..0] == [];
      } else {
        ScanFindsFirst(tags, before + EntryBytes(es[0]), es[1..], tag, size);
        FlattenPrefix(es, FirstIndex(es[1..], tag));
      }
    }
  }

  lemma ScanStep(tags: bytes, before: bytes, e: Entry, rest: bytes, tag: byte, size: nat)
    requires tags == before + (EntryBytes(e) + rest)
    ensures tags == before + EntryBytes(e) + rest
    ensures ScanFrom(tags, size, tag, |before|) ==
            if |before| >= size then NotFound
            else if e.tag == tag then At(|before|)
            else ScanFrom(tags, size, tag, |before + EntryBytes(e)|)
  {
    assert tags[|before|] == |e.value| + 1 && tags[|before| + 1] == e.tag;
  }

  lemma FlattenPrefix(es: seq<Entry>, k: nat)
    requires es != [] && k < |es|
    ensures Flatten(es[..k + 1]) == EntryBytes(es[0]) + Flatten(es[1..][..k])
  {
    assert es[..k + 1][1..] == es[1..][..k];
  }

  /** Value: what the caller receives. Undefined: the source reads outside its buffer, or returns
      an address. */
  datatype Lookup<T> = Value(value: T) | Undefined

  /** strncpy of at most n bytes starting at `from`. */
  function ReadText(tags: bytes, from: nat, n: nat): (r: Lookup<bytes>)
    requires from <= |tags|
  {
    var c := CString(tags[from..]);
    if n <= |c| then Value(c[..n])
    else if from + |c| < |tags| then Value(c)
    else Undefined
  }

  function ReadInt(tags: bytes, from: nat, n: int): (r: Lookup<int64>)
    requires from <= |tags|
  {
    if n == 1 then Undefined
    else if !(n == 2 || n == 4 || n == 8) then Value(0)
    else if from + n <= |tags| then Value(IntValue(tags[from..from + n]))
    else Undefined
  }

  /** The data length both lookups use: the one in the first entry, whichever entry matched. */
  function FirstLength(tags: bytes): (r: byte)
    requires tags != []
    ensures (r + 1) % 256 == tags[0]
  {
    if tags[0] == 0 then 255 else tags[0] - 1
  }

  predicate InReach(tags: bytes, scan: Scan) {
    scan.At? ==> scan.pos + 1 < |tags|
  }

  /** What the two lookups return where the scan has ended. */
  function TextAt(tags: bytes, scan: Scan): (r: Lookup<bytes>)
    requires InReach(tags, scan)
  {
    match scan
    case At(pos) => ReadText(tags, pos + 2, FirstLength(tags))
    case NotFound => Value([])
    case Outside => Undefined
  }

  function IntAt(tags: bytes, scan: Scan): (r: Lookup<int64>)
    requires InReach(tags, scan)
  {
    match scan
    case At(pos) => ReadInt(tags, pos + 2, FirstLength(tags))
    case NotFound => Value(0)
    case Outside => Undefined
  }

  /** The two lookups, for a stored length of `size`. */
  function GetText(tags: bytes, size: nat, tag: byte): (r: Lookup<bytes>) {
    TextAt(tags, ScanFrom(tags, size, tag, 0))
  }

  function GetInt(tags: bytes, size: nat, tag: byte): (r: Lookup<int64>) {
    IntAt(tags, ScanFrom(tags, size, tag, 0))
  }

  /** On a list of entries whose size is stored rightly. */
  function TextOf(es: seq<Entry>, tag: byte): (r: Lookup<bytes>) {
    GetText(Flatten(es), |Flatten(es)|, tag)
  }

  function IntOf(es: seq<Entry>, tag: byte): (r: Lookup<int64>) {
    GetInt(Flatten(es), |Flatten(es)|, tag)
  }

  lemma {:induction false} SplitAt(es: seq<Entry>, k: nat)
    requires k < |es|
    ensures Flatten(es) == Flatten(es[..k]) + EntryBytes(es[k]) + Flatten(es[k + 1..])
    decreases k
  {
    if k > 0 {
      var rest := es[1..];
      SplitAt(rest, k - 1);
      assert es[..k][1..] == rest[..k - 1] && es[k + 1..] == rest[k..];
    }
  }

  lemma FlattenStarts(es: seq<Entry>)
    requires es != []
    ensures Flatten(es) != [] && Flatten(es)[0] == |es[0].value| + 1
  {}

  /** Where entry k sits in the buffer, and what surrounds it. */
  lemma LocateEntry(es: seq<Entry>, k: nat)
    requires k < |es|
    ensures var tags, from := Flatten(es), |Flatten(es[..k])| + 2;
            from <= |tags| && tags[from..] == es[k].value + Flatten(es[k + 1..])
    ensures k + 1 < |es| ==> Flatten(es[k + 1..]) != [] && Flatten(es[k + 1..])[0] > 0
    ensures Flatten(es) != [] && FirstLength(Flatten(es)) == |es[0].value|
  {
    SplitAt(es, k);
    TailAfter(Flatten(es), Flatten(es[..k]), EntryBytes(es[k]), Flatten(es[k + 1..]));
    assert EntryBytes(es[k])[2..] == es[k].value;
    FlattenStarts(es);
    if k + 1 < |es| {
      FlattenStarts(es[k + 1..]);
    }
  }

  lemma ScanFromStart(es: seq<Entry>, tag: byte)
    ensures var k := FirstIndex(es, tag);
            ScanFrom(Flatten(es), |Flatten(es)|, tag, 0) == if k == |es| then NotFound else At(|Flatten(es[..k])|)
  {
    var k := FirstIndex(es, tag);
    assert [] + Flatten(es) == Flatten(es);
    ScanFindsFirst(Flatten(es), [], es, tag, |Flatten(es)|);
    StartsInside(es, k);
  }

  lemma StartsInside(es: seq<Entry>, k: nat)
    requires k <= |es|
    ensures if k < |es| then |Flatten(es[..k])| < |Flatten(es)| else |Flatten(es[..k])| == |Flatten(es)|
  {
    if k < |es| {
      SplitAt(es, k);
    } else {
      assert es[..k] == es;
    }
  }

  lemma TailAfter(tags: bytes, a: bytes, b: bytes, c: bytes)
    requires tags == a + b + c && |b| >= 2
    ensures tags[|a| + 2..] == b[2..] + c
  {}

  /** A tag that no entry carries gives "" and 0. */
  lemma MissingTag(es: seq<Entry>, tag: byte)
    requires FirstIndex(es, tag) == |es|
    ensures TextOf(es, tag) == Value([]) && IntOf(es, tag) == Value(0)
  {
    ScanFromStart(es, tag);
  }

  /** Exactly when a string lookup returns the value of the first matching entry: a value with a
      NUL must end within the first entry's length, any other must have that very length. */
  lemma TextLookupIff(es: seq<Entry>, tag: byte)
    requires FirstIndex(es, tag) < |es|
    ensures var v, n := es[FirstIndex(es, tag)].value, |es[0].value|;
            TextOf(es, tag) == Value(CString(v)) <==>
            if 0 in v then |CString(v)| <= n else |v| == n
  {
    var k := FirstIndex(es, tag);
    ScanFromStart(es, tag);
    LocateEntry(es, k);
    ReadTextIff(es[k].value, Flatten(es[k + 1..]), Flatten(es), |Flatten(es[..k])| + 2, |es[0].value|);
  }

  /** What a string lookup returns whenever a tag is found: strncpy of as many bytes as the first entry
      has, from the value on and past its end. */
  lemma TextLookupReads(es: seq<Entry>, tag: byte)
    requires FirstIndex(es, tag) < |es|
    ensures var k, n := FirstIndex(es, tag), |es[0].value|;
            var s := es[k].value + Flatten(es[k + 1..]);
            TextOf(es, tag) == if n <= |s| || 0 in s then Value(Cut(s, n)) else Undefined
  {
    var k := FirstIndex(es, tag);
    ScanFromStart(es, tag);
    LocateEntry(es, k);
    TextReadsAt(Flatten(es), tag, |Flatten(es[..k])|, es[k].value + Flatten(es[k + 1..]), |es[0].value|);
  }

  lemma TextReadsAt(tags: bytes, tag: byte, pos: nat, s: bytes, n: nat)
    requires ScanFrom(tags, |tags|, tag, 0) == At(pos) && pos + 2 <= |tags| && FirstLength(tags) == n
    requires tags[pos + 2..] == s
    ensures GetText(tags, |tags|, tag) == if n <= |s| || 0 in s then Value(Cut(s, n)) else Undefined
  {
    assert GetText(tags, |tags|, tag) == TextAt(tags, At(pos));
    ReadTextIs(tags, pos + 2, n, s);
  }

  lemma ReadTextIs(tags: bytes, from: nat, n: nat, s: bytes)
    requires from <= |tags| && tags[from..] == s
    ensures ReadText(tags, from, n) == if n <= |s| || 0 in s then Value(Cut(s, n)) else Undefined
  {
    assert s + [] == s;
    CStringPrefix(s, []);
    var c := CString(s);
    assert n == |c| ==> c[..n] == c;
  }

  /** And an integer lookup: the network-order number of as many bytes as the first entry has. */
  lemma IntLookupReads(es: seq<Entry>, tag: byte)
    requires FirstIndex(es, tag) < |es|
    ensures var k, n := FirstIndex(es, tag), |es[0].value|;
            var s := es[k].value + Flatten(es[k + 1..]);
            IntOf(es, tag) ==
            if n == 1 then Undefined
            else if !Swapped(n) then Value(0)
            else if n <= |s| then Value(IntValue(s[..n]))
            else Undefined
  {
    var k := FirstIndex(es, tag);
    ScanFromStart(es, tag);
    LocateEntry(es, k);
    ReadIntIs(Flatten(es), tag, |Flatten(es[..k])|, es[k].value + Flatten(es[k + 1..]), |es[0].value|);
  }

  lemma ReadIntIs(tags: bytes, tag: byte, pos: nat, s: bytes, n: nat)
    requires ScanFrom(tags, |tags|, tag, 0) == At(pos) && pos + 2 <= |tags| && FirstLength(tags) == n
    requires tags[pos + 2..] == s
    ensures GetInt(tags, |tags|, tag) ==
            if n == 1 then Undefined
            else if !Swapped(n) then Value(0)
            else if n <= |s| then Value(IntValue(s[..n]))
            else Undefined
  {
    GetIntAt(tags, |tags|, tag, pos);
    if n <= |s| {
      assert tags[pos + 2..pos + 2 + n] == s[..n];
    }
  }

  lemma ReadTextIff(v: bytes, rest: bytes, tags: bytes, from: nat, n: nat)
    requires from <= |tags| && tags[from..] == v + rest && (rest == [] || rest[0] > 0)
    ensures ReadText(tags, from, n) == Value(CString(v)) <==> if 0 in v then |CString(v)| <= n else |v| == n
  {
    CStringPrefix(v, rest);
    assert rest == [] || CString(rest) != [];
    var c := CString(v + rest);
    assert n <= |c| ==> |c[..n]| == n;
    assert n == |c| ==> c[..n] == c;
    if 0 !in v {
      assert |c| == |v| <==> rest == [];
      assert n == |v| ==> c[..n] == v;
    }
  }

  lemma {:induction false} CStringPrefix(v: bytes, rest: bytes)
    ensures 0 in v ==> CString(v + rest) == CString(v) && |CString(v)| < |v|
    ensures 0 !in v ==> CString(v) == v && CString(v + rest) == v + CString(rest)
  {
    if v == [] {
      assert v + rest == rest;
    } else if v[0] != 0 {
      assert (v + rest)[1..] == v[1..] + rest;
      assert v == [v[0]] + v[1..];
      CStringPrefix(v[1..], rest);
    } else {
      assert CString(v + rest) == [];
    }
  }

  /** When an integer lookup that takes n bytes reads the number of an entry with value v. An entry of
      2, 4 or 8 bytes: n is its length; or its number is zero, and no more than zero bytes of it are
      read. An entry of another length has the number 0: nothing is read, or zero bytes of it are. */
  predicate ReadsNumber(v: bytes, n: nat) {
    if Swapped(|v|) then n == |v| || (IntValue(v) == 0 && n != 1 && !(Swapped(n) && n > |v|))
    else n != 1 && (Swapped(n) ==> n < |v| && IntValue(v[..n]) == 0)
  }

  lemma GetIntAt(tags: bytes, size: nat, tag: byte, pos: nat)
    requires ScanFrom(tags, size, tag, 0) == At(pos)
    ensures GetInt(tags, size, tag) == ReadInt(tags, pos + 2, FirstLength(tags))
  {
    AtReadsInt(tags, ScanFrom(tags, size, tag, 0), pos);
  }

  lemma AtReadsInt(tags: bytes, scan: Scan, pos: nat)
    requires scan == At(pos) && InReach(tags, scan)
    ensures IntAt(tags, scan) == ReadInt(tags, pos + 2, FirstLength(tags))
  {}

  /** Exactly when an integer lookup returns the number of the first matching entry. */
  lemma IntLookupIff(es: seq<Entry>, tag: byte)
    requires FirstIndex(es, tag) < |es|
    ensures var v, n := es[FirstIndex(es, tag)].value, |es[0].value|;
            IntOf(es, tag) == Value(IntValue(v)) <==> ReadsNumber(v, n)
  {
    var k, tags := FirstIndex(es, tag), Flatten(es);
    ScanFromStart(es, tag);
    LocateEntry(es, k);
    IntLookupAt(tags, tag, |Flatten(es[..k])|, es[k].value, Flatten(es[k + 1..]), |es[0].value|);
  }

  lemma IntLookupAt(tags: bytes, tag: byte, pos: nat, v: bytes, rest: bytes, n: nat)
    requires ScanFrom(tags, |tags|, tag, 0) == At(pos) && pos + 2 <= |tags| && FirstLength(tags) == n
    requires tags[pos + 2..] == v + rest && (rest == [] || rest[0] > 0)
    ensures GetInt(tags, |tags|, tag) == Value(IntValue(v)) <==> ReadsNumber(v, n)
  {
    GetIntAt(tags, |tags|, tag, pos);
    ReadIntIff(v, rest, tags, pos + 2, n);
  }

  lemma ReadIntIff(v: bytes, rest: bytes, tags: bytes, from: nat, n: nat)
    requires from <= |tags| && tags[from..] == v + rest && (rest == [] || rest[0] > 0)
    ensures ReadInt(tags, from, n) == Value(IntValue(v)) <==> ReadsNumber(v, n)
  {
    if Swapped(n) && from + n <= |tags| {
      assert tags[from..from + n] == tags[from..][..n];
      if n < |v| {
        assert (v + rest)[..n] == v[..n];
        if Swapped(|v|) {
          ShortRead(v, n);
        }
      } else if n > |v| {
        assert (v + rest)[..n] == v + rest[..n - |v|];
        LongRead(v, rest[..n - |v|]);
      } else {
        assert (v + rest)[..n] == v;
      }
    }
  }

  lemma ShortRead(v: bytes, n: nat)
    requires Swapped(|v|) && Swapped(n) && n < |v|
    ensures IntValue(v[..n]) == IntValue(v) <==> IntValue(v) == 0
  {
    var a, b := v[..n], v[n..];
    SplitBytes(v, n);
    IntValueIs(v);
    IntValueIs(a);
    BigEndianConcat(a, b);
    PowerGrows(|b|);
    ScaledIff(BigEndianValue(a), Pow256(|b|), BigEndianValue(b), IntValue(v));
  }

  lemma SplitBytes(v: bytes, n: nat)
    requires n <= |v|
    ensures v[..n] + v[n..] == v
  {}

  lemma PowerGrows(n: nat)
    requires n > 0
    ensures Pow256(n) >= 256
  {
    assert Pow256(n) == 256 * Pow256(n - 1);
  }

  lemma ScaledIff(a: nat, p: nat, c: nat, x: int)
    requires p >= 2 && (x == a * p + c || x < 0)
    ensures a == x <==> x == 0
  {
    GrowsBy(a, p);
  }

  lemma GrowsBy(h: nat, p: nat)
    requires p >= 2
    ensures h * p >= 2 * h
  {}

  lemma LongRead(v: bytes, more: bytes)
    requires Swapped(|v| + |more|) && more != [] && more[0] > 0
    ensures IntValue(v + more) != IntValue(v)
  {
    IntValueIs(v + more);
    BigEndianConcat(v, more);
    FirstByteCounts(more);
    PowerGrows(|more|);
    GrowsBy(BigEndianValue(v), Pow256(|more|));
    if Swapped(|v|) {
      IntValueIs(v);
    }
  }

  lemma FirstByteCounts(s: bytes)
    requires s != [] && s[0] > 0
    ensures BigEndianValue(s) > 0
  {
    assert s == [s[0]] + s[1..];
    BigEndianConcat([s[0]], s[1..]);
    assert [s[0]][..0] == [];
    assert BigEndianValue([s[0]]) == s[0];
    GrowsAtLeast(s[0], Pow256(|s[1..]|));
  }

  lemma GrowsAtLeast(h: nat, p: nat)
    requires h >= 1 && p >= 1
    ensures h * p >= 1
  {}

  /** The lookups fail on real tags: whenever a 4-byte value such as FIRM comes first, an 8-byte
      integer such as SECONDARY_ORD_REF_NUM cannot be read back unless it is zero. */
  lemma LongTagAfterShortFirst(es: seq<Entry>, t: Tag, v: int64)
    requires FirstIndex(es, t) < |es| && es[FirstIndex(es, t)] == IntEntry(t, v)
    requires |es[0].value| == 4 && TagLength(t) == 8
    ensures IntOf(es, t) == Value(v) <==> v == 0
  {
    IntReadsBack(Itch, TagLength(t), v);
    IntLookupIff(es, t);
  }

  // ------------------------------------------------------------ a length inside a number

  /** The third and fourth byte of an 8-byte number in network order. */
  function MiddleOf(v: int): (n: nat)
    ensures n < TWO16
  {
    v / 0x1_0000_0000 % TWO16
  }

  lemma MiddleIs(high: nat, middle: nat, low: nat, x: int)
    requires middle < TWO16 && low < 0x1_0000_0000 && high < TWO16
    requires || x == (high * TWO16 + middle) * 0x1_0000_0000 + low
             || x == (high * TWO16 + middle) * 0x1_0000_0000 + low - TWO64
    ensures MiddleOf(x) == middle
  {}

  lemma ValueOfThree(a: bytes, b: bytes, c: bytes)
    requires |b| == 2 && |c| == 4
    ensures BigEndianValue(a + b + c) ==
            (BigEndianValue(a) * TWO16 + BigEndianValue(b)) * 0x1_0000_0000 + BigEndianValue(c)
  {
    Pow256Values();
    BigEndianConcat(a, b);
    BigEndianConcat(a + b, c);
  }

  lemma ShortBound(s: bytes)
    requires Swapped(|s|)
    ensures BigEndianValue(s) < if |s| == 2 then TWO16 else if |s| == 4 then 0x1_0000_0000 else TWO64
  {
    BigEndianBound(s);
    Pow256Values();
  }

  lemma MiddleOfSlot(s: bytes, a: bytes, b: bytes, c: bytes)
    requires |a| == 2 && |b| == 2 && |c| == 4 && s == a + b + c
    ensures MiddleOf(IntValue(s)) == IntValue(b)
  {
    IntValueIs(s);
    IntValueIs(b);
    ShortBound(a);
    ShortBound(b);
    ShortBound(c);
    ValueOfThree(a, b, c);
    MiddleIs(BigEndianValue(a), BigEndianValue(b), BigEndianValue(c), IntValue(s));
  }

  /** The length field f is the middle of the 8-byte field g. */
  predicate Inside(f: Field, g: Field, size: nat) {
    Fits(g, size) && g.length == 8 && f == Field(g.offset + 2, 2)
  }

  lemma MiddleSlot(rec: bytes, o: nat)
    requires o + 8 <= |rec|
    ensures rec[o..o + 8][2..4] == rec[o + 2..o + 4]
  {
    var s := rec[o..o + 8];
    assert s[2] == rec[o + 2] && s[3] == rec[o + 3];
    assert s[2..4] == [s[2], s[3]] && rec[o + 2..o + 4] == [rec[o + 2], rec[o + 3]];
  }

  lemma LengthInside(rec: bytes, f: Field, g: Field)
    requires Inside(f, g, |rec|)
    ensures HasLength(rec, f) && AppendageLength(rec, f) == MiddleOf(IntValue(Slot(rec, g)))
  {
    var s := Slot(rec, g);
    MiddleSlot(rec, g.offset);
    assert s == s[..2] + s[2..4] + s[4..];
    MiddleOfSlot(s, s[..2], s[2..4], s[4..]);
  }

  function SetNumber(m: Message, g: Field, v: int64): (m': Message)
    requires Fits(g, |m.record|) && g.length == 8
    ensures |m'.record| == |m.record|
  {
    m.(record := Put(m.record, g, IntBytes(Ouch, 8, v)))
  }

  lemma NumberSetsLength(m: Message, f: Field, g: Field, v: int64)
    requires Inside(f, g, |m.record|)
    ensures HasLength(SetNumber(m, g, v).record, f) && AppendageLength(SetNumber(m, g, v).record, f) == MiddleOf(v)
  {
    LengthInside(SetNumber(m, g, v).record, f, g);
    IntReadsBack(Ouch, 8, v);
  }

  lemma StoredAfterAdd(m: Message, f: Field, e: Entry, gap: bytes)
    requires FitsGap(m, f, gap)
    ensures AppendageLength(AddEntry(m, f, e, gap).record, f) == (AppendageLength(m.record, f) + 2 + |e.value|) % TWO16
  {
    var size := AppendageLength(m.record, f) + 2 + |e.value|;
    IntReadsBack(Ouch, 2, size);
    Pow256Values();
    assert Slot(AddEntry(m, f, e, gap).record, f) == IntBytes(Ouch, 2, size);
  }

  /** On any message, the entry is appended exactly when the stored length is the buffer's size. */
  lemma AppendsIff(m: Message, f: Field, e: Entry, gap: bytes)
    requires FitsGap(m, f, gap)
    ensures AddEntry(m, f, e, gap).tags == m.tags + EntryBytes(e) <==> Valid(m, f)
  {
    var n := AppendageLength(m.record, f);
    assert |Kept(m.tags, n, gap) + EntryBytes(e)| == n + |EntryBytes(e)|;
  }

  /** No number survives an add: the length always moves. */
  lemma AddChangesNumber(m: Message, f: Field, g: Field, e: Entry, gap: bytes)
    requires Inside(f, g, |m.record|) && FitsGap(m, f, gap)
    ensures var r := AddEntry(m, f, e, gap).record;
            |r| == |m.record| && IntValue(Slot(r, g)) != IntValue(Slot(m.record, g))
  {
    StoredAfterAdd(m, f, e, gap);
    MovesBy(AppendageLength(m.record, f), 2 + |e.value|);
    DifferentNumbers(m.record, AddEntry(m, f, e, gap).record, f, g);
  }

  lemma DifferentNumbers(rec: bytes, rec': bytes, f: Field, g: Field)
    requires Inside(f, g, |rec|) && |rec'| == |rec| && AppendageLength(rec, f) != AppendageLength(rec', f)
    ensures IntValue(Slot(rec, g)) != IntValue(Slot(rec', g))
  {
    LengthInside(rec, f, g);
    LengthInside(rec', f, g);
  }

  lemma MovesBy(n: nat, k: nat)
    requires n < TWO16 && 0 < k < TWO16
    ensures (n + k) % TWO16 != n
  {}

  /** What writing the order reference number of order_accepted does to a later add_tag_value. The
      number moves the stored length, so the entry is appended exactly when the middle of the number
      happens to be the size of the buffer; and the number never survives. */
  lemma AddAfterReference(m: Message, v: int64, e: Entry, gap: bytes)
    requires |m.record| == OUCH_ORDER_ACCEPTED.size
    requires FitsGap(SetNumber(m, ORDER_REFERENCE_NUMBER, v), ACCEPTED_APPENDAGE_LENGTH, gap)
    ensures var r := AddEntry(SetNumber(m, ORDER_REFERENCE_NUMBER, v), ACCEPTED_APPENDAGE_LENGTH, e, gap);
            && (r.tags == m.tags + EntryBytes(e) <==> MiddleOf(v) == |m.tags|)
            && |r.record| == |m.record| && IntValue(Slot(r.record, ORDER_REFERENCE_NUMBER)) != v
  {
    AddAfterNumber(m, ACCEPTED_APPENDAGE_LENGTH, ORDER_REFERENCE_NUMBER, v, e, gap);
  }

  lemma AddAfterNumber(m: Message, f: Field, g: Field, v: int64, e: Entry, gap: bytes)
    requires Inside(f, g, |m.record|) && FitsGap(SetNumber(m, g, v), f, gap)
    ensures var r := AddEntry(SetNumber(m, g, v), f, e, gap);
            && (r.tags == m.tags + EntryBytes(e) <==> MiddleOf(v) == |m.tags|)
            && |r.record| == |m.record| && IntValue(Slot(r.record, g)) != v
  {
    NumberSetsLength(m, f, g, v);
    AppendsIff(SetNumber(m, g, v), f, e, gap);
    AddChangesNumber(SetNumber(m, g, v), f, g, e, gap);
    IntReadsBack(Ouch, 8, v);
  }

  // ------------------------------------------------------------ what is stored, and read again

  /** The value bytes of a string tag: the string from its beginning, and its NUL if it is one short. */
  lemma TextEntryIs(t: Tag, text: bytes)
    requires LongEnough(t, text)
    ensures var e := TextEntry(t, text);
            && e.tag == t && |e.value| == TagLength(t)
            && forall k :: 0 <= k < |e.value| ==> e.value[k] == if k < |text| then text[k] else 0
  {}

  /** The value bytes of an integer tag of 4 or 8 bytes are the number in network order; any other tag
      gets the number's low bytes, low byte first. */
  lemma IntEntryIs(t: Tag, v: int64)
    ensures var e := IntEntry(t, v);
            && e.tag == t && |e.value| == TagLength(t)
            && (Swapped(TagLength(t)) ==> BigEndianValue(e.value) == v % Pow256(TagLength(t)))
            && (!Swapped(TagLength(t)) ==> Load(e.value) == v % Pow256(TagLength(t)))
  {
    IntWireOrder(Itch, TagLength(t), v);
    BigEndianRoundTrip(v, TagLength(t));
    LoadStore(v, TagLength(t));
  }

  /** Where add_tag_value puts an entry on any message, byte by byte, and what it stores as the length:
      the bytes before the stored length are kept as far as there were any, and nothing else of the
      record changes. */
  lemma AddPlacesEntry(m: Message, f: Field, e: Entry, gap: bytes)
    requires FitsGap(m, f, gap)
    ensures var n, m' := AppendageLength(m.record, f), AddEntry(m, f, e, gap);
            && |m'.tags| == n + 2 + |e.value|
            && (forall k :: 0 <= k < n && k < |m.tags| ==> m'.tags[k] == m.tags[k])
            && m'.tags[n] == |e.value| + 1 && m'.tags[n + 1] == e.tag
            && (forall k :: 0 <= k < |e.value| ==> m'.tags[n + 2 + k] == e.value[k])
            && AppendageLength(m'.record, f) == (n + 2 + |e.value|) % 65536
            && forall k :: 0 <= k < |m.record| && !(f.offset <= k < End(f)) ==> m'.record[k] == m.record[k]
  {
    StoredAfterAdd(m, f, e, gap);
    var n := AppendageLength(m.record, f);
    assert |Kept(m.tags, n, gap)| == n && |EntryBytes(e)| == 2 + |e.value|;
    forall k | 0 <= k < |e.value|
      ensures AddEntry(m, f, e, gap).tags[n + 2 + k] == e.value[k]
    {
      assert EntryBytes(e)[2 + k] == e.value[k];
    }
  }

  /** The first entry that the adds of a history put under tag t: in step j. */
  predicate FirstAdd(steps: seq<Step>, j: nat, t: Tag) {
    && j < |steps| && AddsTo(steps[j], t) && forall i :: 0 <= i < j ==> !AddsTo(steps[i], t)
  }

  predicate AddsTo(s: Step, t: Tag) {
    !s.SetField? && s.tag == t
  }

  lemma {:induction false} EntriesSplit(layout: seq<Field>, a: nat, steps: seq<Step>, j: nat) returns (rest: seq<Entry>)
    requires a < |layout| && (forall s :: s in steps ==> Allowed(layout, a, s)) && j < |steps|
    ensures Entries(layout, a, steps) ==
            Entries(layout, a, steps[..j]) + EntriesOf(layout, a, steps[j]) + rest
    decreases |steps|
  {
    var init, last := steps[..|steps| - 1], steps[|steps| - 1];
    if j == |steps| - 1 {
      rest := [];
    } else {
      rest := EntriesSplit(layout, a, init, j);
      assert init[..j] == steps[..j];
      rest := rest + EntriesOf(layout, a, last);
    }
  }

  lemma {:induction false} NoEntryBefore(layout: seq<Field>, a: nat, steps: seq<Step>, t: Tag)
    requires a < |layout| && forall s :: s in steps ==> Allowed(layout, a, s)
    requires forall i :: 0 <= i < |steps| ==> !AddsTo(steps[i], t)
    ensures forall e :: e in Entries(layout, a, steps) ==> e.tag != t
  {
    if steps != [] {
      NoEntryBefore(layout, a, steps[..|steps| - 1], t);
    }
  }

  lemma FirstIndexIs(before: seq<Entry>, e: Entry, rest: seq<Entry>)
    requires forall b :: b in before ==> b.tag != e.tag
    ensures FirstIndex(before + [e] + rest, e.tag) == |before|
  {
    var es := before + [e] + rest;
    assert es[|before|] == e;
    forall i | 0 <= i < |before|
      ensures es[i].tag != e.tag
    {
      assert es[i] in before;
    }
  }

  /** The entry a lookup of t should find: the one of the first step that added under t. */
  lemma FirstEntryOfHistory(layout: seq<Field>, a: nat, steps: seq<Step>, j: nat, t: Tag)
    requires a < |layout| && (forall s :: s in steps ==> Allowed(layout, a, s)) && FirstAdd(steps, j, t)
    ensures var es := Entries(layout, a, steps);
            FirstIndex(es, t) < |es| && [es[FirstIndex(es, t)]] == EntriesOf(layout, a, steps[j])
  {
    var rest := EntriesSplit(layout, a, steps, j);
    var e := EntriesOf(layout, a, steps[j])[0];
    NoEntryBefore(layout, a, steps[..j], t);
    FirstIndexIs(Entries(layout, a, steps[..j]), e, rest);
    assert EntriesOf(layout, a, steps[j]) == [e];
  }

  /** A string goes in and comes out: after any history of adds and field writes, a lookup of a tag
      whose first add was a string returns that string, cut at its NUL and at the tag's length, if the
      first entry of the message has that length too. */
  lemma TextOfHistory(layout: seq<Field>, a: nat, blank: bytes, m: Message, steps: seq<Step>, j: nat,
                      t: Tag, text: bytes)
    requires a < |layout| && forall s :: s in steps ==> Allowed(layout, a, s)
    requires Represents(layout, a, blank, m, Entries(layout, a, steps), FieldWrites(steps))
    requires FirstAdd(steps, j, t) && steps[j] == AddText(t, text) && FirstLengthIs(m, TagLength(t))
    ensures HasLength(m.record, layout[a])
    ensures GetText(m.tags, AppendageLength(m.record, layout[a]), t) == Value(Cut(text, TagLength(t)))
  {
    assert Allowed(layout, a, steps[j]);
    FirstEntryOfHistory(layout, a, steps, j, t);
    TextReadsBack(Entries(layout, a, steps), m, t, text);
  }

  predicate FirstLengthIs(m: Message, n: nat) {
    m.tags != [] && m.tags[0] == n + 1
  }

  lemma TextReadsBack(es: seq<Entry>, m: Message, t: Tag, text: bytes)
    requires LongEnough(t, text) && FirstIndex(es, t) < |es| && es[FirstIndex(es, t)] == TextEntry(t, text)
    requires m.tags == Flatten(es) && FirstLengthIs(m, TagLength(t))
    ensures GetText(m.tags, |m.tags|, t) == Value(Cut(text, TagLength(t)))
  {
    FlattenStarts(es);
    TextLookupIff(es, t);
    CStringOfTaken(text, TagLength(t));
  }

  lemma CStringOfTaken(text: bytes, n: nat)
    requires n <= |text| + 1
    ensures CString((text + [0])[..n]) == Cut(text, n)
  {
    var v, c := (text + [0])[..n], CString(text);
    if |c| < n {
      assert v == c + ([0] + v[|c| + 1..]);
      CStringPrefix(c, [0] + v[|c| + 1..]);
      CStringPrefix(c, []);
    } else {
      assert v == c[..n];
      CStringPrefix(v, []);
    }
  }

  /** The same of an integer: a 4-byte tag gives the number modulo 2^32, an 8-byte tag the number. */
  lemma IntOfHistory(layout: seq<Field>, a: nat, blank: bytes, m: Message, steps: seq<Step>, j: nat,
                     t: Tag, v: int64)
    requires a < |layout| && forall s :: s in steps ==> Allowed(layout, a, s)
    requires Represents(layout, a, blank, m, Entries(layout, a, steps), FieldWrites(steps))
    requires FirstAdd(steps, j, t) && steps[j] == AddInt(t, v) && FirstLengthIs(m, TagLength(t))
    requires TagLength(t) == 4 || TagLength(t) == 8
    ensures HasLength(m.record, layout[a])
    ensures GetInt(m.tags, AppendageLength(m.record, layout[a]), t) ==
            Value(if TagLength(t) == 4 then v % 0x1_0000_0000 else v)
  {
    FirstEntryOfHistory(layout, a, steps, j, t);
    NumberReadsBack(Entries(layout, a, steps), m, t, v);
  }

  lemma NumberReadsBack(es: seq<Entry>, m: Message, t: Tag, v: int64)
    requires FirstIndex(es, t) < |es| && es[FirstIndex(es, t)] == IntEntry(t, v)
    requires m.tags == Flatten(es) && FirstLengthIs(m, TagLength(t)) && (TagLength(t) == 4 || TagLength(t) == 8)
    ensures GetInt(m.tags, |m.tags|, t) == Value(if TagLength(t) == 4 then v % 0x1_0000_0000 else v)
  {
    FlattenStarts(es);
    IntLookupIff(es, t);
    IntReadsBack(Itch, TagLength(t), v);
    Pow256Values();
  }

  lemma InNetworkOrder(t: Tag, v: int64, n: nat, e: Entry)
    requires TagLength(t) == n && Swapped(n) && e == IntEntry(t, v)
    ensures e.tag == t && e.value == BigEndian(v, n)
  {
    IntWireOrder(Itch, n, v);
  }

  lemma TwoEntries(es: seq<Entry>)
    requires |es| == 2
    ensures Flatten(es) == EntryBytes(es[0]) + EntryBytes(es[1])
  {
    assert es[1..] == [es[1]] && es[1..][1..] == [];
    assert Flatten(es[1..]) == EntryBytes(es[1]);
  }

  lemma SecondIndex(es: seq<Entry>, tag: byte)
    requires |es| == 2 && es[0].tag != tag && es[1].tag == tag
    ensures FirstIndex(es, tag) == 1
  {
    assert es[1..][0] == es[1];
  }

  /** The way of the repository's test: a string in the first entry, and a number in the second if the
      first has four bytes too, are read back. */
  lemma FirstTextReads(m: Message, es: seq<Entry>, t: Tag, text: bytes)
    requires LongEnough(t, text) && 0 !in text && |text| == TagLength(t)
    requires |es| == 2 && es[0] == TextEntry(t, text) && m.tags == Flatten(es)
    ensures GetText(m.tags, |m.tags|, t) == Value(text)
  {
    FlattenStarts(es);
    TextReadsBack(es, m, t, text);
    WholeText(text);
  }

  lemma NextNumberReads(m: Message, es: seq<Entry>, t: Tag, v: int64)
    requires |es| == 2 && es[0].tag != t && es[1] == IntEntry(t, v) && |es[0].value| == TagLength(t) == 4
    requires m.tags == Flatten(es)
    ensures GetInt(m.tags, |m.tags|, t) == Value(v % 0x1_0000_0000)
  {
    FlattenStarts(es);
    SecondIndex(es, t);
    NumberReadsBack(es, m, t, v);
  }

  lemma WholeTextEntry(t: Tag, text: bytes, e: Entry)
    requires |text| == TagLength(t) && e == TextEntry(t, text)
    ensures e == Entry(t, text)
  {
    assert (text + [0])[..|text|] == text;
  }

  lemma StoredBytes(es: seq<Entry>, text: bytes, number: bytes)
    requires text == [65, 66, 67, 68] && number == [0, 0, 0, 100]
    requires |es| == 2 && es[0] == Entry(2, text) && es[1] == Entry(3, number)
    ensures Flatten(es) == [5, 2, 65, 66, 67, 68, 5, 3, 0, 0, 0, 100]
  {
    TwoEntries(es);
  }

  /** What the repository's test stores: FIRM "ABCD", then MIN_QTY 100. */
  lemma FirmAndQuantity(es: seq<Entry>, firm: Tag, minQty: Tag, text: bytes, v: int64)
    requires firm == 2 && minQty == 3 && text == [65, 66, 67, 68] && v == 100
    requires |es| == 2 && es[0] == TextEntry(firm, text) && es[1] == IntEntry(minQty, v)
    ensures Flatten(es) == [5, 2, 65, 66, 67, 68, 5, 3, 0, 0, 0, 100]
  {
    WholeTextEntry(firm, text, es[0]);
    InNetworkOrder(minQty, v, 4, es[1]);
    HundredInOrder(v, es[1].value);
    StoredBytes(es, text, es[1].value);
  }

  lemma HundredInOrder(v: int, s: bytes)
    requires v == 100 && s == BigEndian(v, 4)
    ensures s == [0, 0, 0, 100]
  {
    var z := v / 256;
    assert Store(z, 2) == [0] + Store(z / 256, 1) && Store(z / 256, 1) == [0] + Store(z / 256 / 256, 0);
    assert Store(v, 4) == [100] + Store(z, 3) && Store(z, 3) == [0] + Store(z / 256, 2);
    assert Store(z / 256, 2) == [0] + Store(z / 256 / 256, 1);
    assert Store(z / 256 / 256, 1) == [0] + Store(z / 256 / 256 / 256, 0);
    assert Store(v, 4) == [100, 0, 0, 0];
  }

  lemma WholeText(text: bytes)
    requires 0 !in text
    ensures CString(text) == text && Cut(text, |text|) == text
  {
    CStringPrefix(text, []);
  }

  // ------------------------------------------------------------ over the wire

  /** The byte constructor and set_tag_values on a received record and what follows it. */
  function FromWire(record: bytes, tail: bytes, f: Field): (r: Message)
    requires HasLength(record, f) && AppendageLength(record, f) <= |tail|
  {
    Message(record, tail[..AppendageLength(record, f)])
  }

  /** A message sent as record plus appendages is rebuilt exactly when its stored length is right. */
  lemma WireRoundTripIff(m: Message, f: Field, more: bytes)
    requires HasLength(m.record, f) && AppendageLength(m.record, f) <= |m.tags + more|
    ensures FromWire(m.record, m.tags + more, f) == m <==> Valid(m, f)
  {
    if Valid(m, f) {
      assert (m.tags + more)[..|m.tags|] == m.tags;
    }
  }

  // ------------------------------------------------------------ the class

  /** The bytes add_tag_value copies out of its 8-byte temporary. */
  method TagData(t: Tag, v: int64) returns (data: bytes)
    ensures data == IntEntry(t, v).value
  {
    var length, tmp: int := TAG_LENGTHS[t], v;
    match length {
      case 2 => tmp := Swap(v, 2);
      case 4 => tmp := Swap(v, 4);
      case 8 => tmp := Swap(v, 8);
      case _ =>
    }
    data := Store(tmp, length);
  }

  class OuchMessage {
    const fixed: FixedRecord
    const lengthField: Field
    var tagValues: bytes

    ghost function View(): (r: Message)
      reads this, fixed.record
    {
      Message(fixed.record[..], tagValues)
    }

    ghost predicate Shaped()
      reads this, fixed.record
    {
      fixed.dialect == Ouch && HasLength(fixed.record[..], lengthField)
    }

    /** The stored length is the size of the buffer. */
    ghost predicate Ok()
      reads this, fixed.record
    {
      Shaped() && Valid(View(), lengthField)
    }

    constructor Blank(size: nat, messageType: byte, lengthField: Field)
      requires 1 <= lengthField.offset && Fits(lengthField, size) && lengthField.length == 2
      ensures Ok() && fresh(fixed) && fresh(fixed.record) && this.lengthField == lengthField
      ensures View() == Message([messageType] + Zeros(size - 1), [])
    {
      fixed := new FixedRecord.Blank(Ouch, size, messageType);
      this.lengthField := lengthField;
      tagValues := [];
      new;
      assert Slot(fixed.record[..], lengthField) == [0, 0];
      LoadThenSwap([0, 0]);
      TwoBytes(0, 0, 0);
    }

    constructor FromBytes(size: nat, source: bytes, lengthField: Field)
      requires size <= |source| && Fits(lengthField, size) && lengthField.length == 2
      ensures fresh(fixed) && fresh(fixed.record) && this.lengthField == lengthField
      ensures fixed.dialect == Ouch && View() == Message(source[..size], [])
    {
      fixed := new FixedRecord.FromBytes(Ouch, size, source);
      this.lengthField := lengthField;
      tagValues := [];
    }

    method SetTagValues(tail: bytes)
      requires Shaped()
      requires AppendageLength(fixed.record[..], lengthField) <= |tail|
      modifies this
      ensures View() == FromWire(fixed.record[..], tail, lengthField) && Ok()
    {
      var size := fixed.GetInt(lengthField);
      tagValues := tail[..size];
    }

    method AddTagInt(t: Tag, v: int64) returns (ghost gap: bytes)
      requires Shaped()
      modifies this, fixed.record
      ensures Shaped() && FitsGap(old(View()), lengthField, gap)
      ensures View() == AddEntry(old(View()), lengthField, IntEntry(t, v), gap)
    {
      var data := TagData(t, v);
      gap := AppendTag(t, data);
    }

    method AddTagText(t: Tag, text: bytes) returns (ghost gap: bytes)
      requires Shaped() && LongEnough(t, text)
      modifies this, fixed.record
      ensures Shaped() && FitsGap(old(View()), lengthField, gap)
      ensures View() == AddEntry(old(View()), lengthField, TextEntry(t, text), gap)
    {
      gap := AppendTag(t, (text + [0])[..TAG_LENGTHS[t]]);
    }

    /** realloc, write the length, the tag and the data, adjust the stored length. The bytes of the gap
        are not determined (here 0). */
    method AppendTag(t: Tag, data: bytes) returns (ghost gap: bytes)
      requires Shaped() && |data| < 255
      modifies this, fixed.record
      ensures Shaped() && FitsGap(old(View()), lengthField, gap)
      ensures View() == AddEntry(old(View()), lengthField, Entry(t, data), gap)
    {
      var origSize := fixed.GetInt(lengthField);
      var fill := Zeros(GapLength(tagValues, origSize));
      gap := fill;
      tagValues := Kept(tagValues, origSize, fill) + ([|data| + 1, t] + data);
      assert tagValues == Kept(old(tagValues), origSize, gap) + EntryBytes(Entry(t, data));
      fixed.SetInt(lengthField, origSize + 2 + |data|);
    }

    /** The loop of both lookups. */
    method ScanTags(t: Tag) returns (r: Scan)
      requires Shaped()
      ensures r == ScanFrom(tagValues, AppendageLength(fixed.record[..], lengthField), t, 0)
    {
      var size: nat := fixed.GetInt(lengthField);
      var pos := 0;
      while pos < size
        invariant ScanFrom(tagValues, size, t, pos) == ScanFrom(tagValues, size, t, 0)
        decreases size - pos
      {
        if pos + 1 >= |tagValues| {
          return Outside;
        }
        if tagValues[pos + 1] == t {
          return At(pos);
        }
        pos := pos + tagValues[pos] + 1;
      }
      return NotFound;
    }

    method GetTagText(t: Tag) returns (r: Lookup<bytes>)
      requires Shaped()
      ensures r == GetText(tagValues, AppendageLength(fixed.record[..], lengthField), t)
    {
      var scan := ScanTags(t);
      r := TextAt(tagValues, scan);
    }

    method GetTagInt(t: Tag) returns (r: Lookup<int64>)
      requires Shaped()
      ensures r == GetInt(tagValues, AppendageLength(fixed.record[..], lengthField), t)
    {
      var scan := ScanTags(t);
      r := IntAt(tagValues, scan);
    }
  }

  /** Sending and rebuilding, in full: the copy has the same record, appendages and lookups. */
  method Resend(m: OuchMessage) returns (copy: OuchMessage)
    requires m.Ok()
    ensures fresh(copy) && copy.Ok() && copy.lengthField == m.lengthField && copy.View() == m.View()
  {
    copy := new OuchMessage.FromBytes(m.fixed.record.Length, m.fixed.record[..], m.lengthField);
    assert copy.fixed.record[..] == m.fixed.record[..];
    copy.SetTagValues(m.tagValues);
    assert m.tagValues + [] == m.tagValues;
    WireRoundTripIff(m.View(), m.lengthField, []);
  }
}
