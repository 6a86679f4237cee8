/**
The 0x5201 message from the side of the phone: a writer of route updates, with the type of every field, and the round
trip through the parser of rgd_tlv.c.
*/
module RouteMessage {
  import opened Bytes
  import opened Newlines
  import opened RouteUpdate
  import opened RouteUpdateTheorems
  import opened Tlv
  import opened Wrappers

  /** The values that a field can have: unsigned numbers of 8 to 64 bits, short texts, names, and lists of words. */
  datatype Value = U8(n: nat) | U16(n: nat) | U32(n: nat) | U64(n: nat) | Short(s: seq<byte>) | Name(s: seq<byte>)
                 | LongName(s: seq<byte>) | Items(ws: seq<nat>)

  /** Everything that an update can say. */
  datatype Update = Update(
    components: Option<seq<nat>>,
    routeState: Option<nat>,
    maneuverState: Option<nat>,
    currentRoad: Option<seq<byte>>,
    destination: Option<seq<byte>>,
    eta: Option<nat>,
    timeRemaining: Option<nat>,
    distanceRemaining: Option<nat>,
    distanceText: Option<seq<byte>>,
    distanceUnits: Option<nat>,
    distanceToManeuver: Option<nat>,
    distanceToManeuverText: Option<seq<byte>>,
    distanceToManeuverUnits: Option<nat>,
    maneuvers: Option<seq<nat>>,
    maneuverCount: Option<nat>,
    visibleInApp: Option<nat>,
    laneIndex: Option<nat>,
    laneTotal: Option<nat>,
    laneShowing: Option<nat>,
    sourceName: Option<seq<byte>>,
    supported: Option<nat>)

  function Map<S, T>(f: S -> T, x: Option<S>): Option<T> {
    match x
    case None => None
    case Some(v) => Some(f(v))
  }

  /** The fields by their numbers. */
  function FieldOf(u: Update, id: nat): Option<Value>
    requires id < 21
  {
    match id
    case 0 => Map(ws => Items(ws), u.components)
    case 1 => Map(n => U8(n), u.routeState)
    case 2 => Map(n => U8(n), u.maneuverState)
    case 3 => Map(s => LongName(s), u.currentRoad)
    case 4 => Map(s => LongName(s), u.destination)
    case 5 => Map(n => U64(n), u.eta)
    case 6 => Map(n => U64(n), u.timeRemaining)
    case 7 => Map(n => U32(n), u.distanceRemaining)
    case 8 => Map(s => Short(s), u.distanceText)
    case 9 => Map(n => U8(n), u.distanceUnits)
    case 10 => Map(n => U32(n), u.distanceToManeuver)
    case 11 => Map(s => Short(s), u.distanceToManeuverText)
    case 12 => Map(n => U8(n), u.distanceToManeuverUnits)
    case 13 => Map(ws => Items(ws), u.maneuvers)
    case 14 => Map(n => U16(n), u.maneuverCount)
    case 15 => Map(n => U8(n), u.visibleInApp)
    case 16 => Map(n => U16(n), u.laneIndex)
    case 17 => Map(n => U16(n), u.laneTotal)
    case 18 => Map(n => U8(n), u.laneShowing)
    case 19 => Map(s => Name(s), u.sourceName)
    case 20 => Map(n => U8(n), u.supported)
  }

  // ---- Writing ----

  /** A number in so many bytes, most significant first. */
  function BigEndian(n: nat, width: nat): (b: seq<byte>)
    ensures |b| == width
  {
    if width == 0 then [] else BigEndian(n / 256, width - 1) + [n % 256]
  }

  function Bytes16(ws: seq<nat>): seq<byte> {
    if ws == [] then [] else BigEndian(ws[0], 2) + Bytes16(ws[1..])
  }

  function Octets(v: Value): seq<byte> {
    match v
    case U8(n) => BigEndian(n, 1)
    case U16(n) => BigEndian(n, 2)
    case U32(n) => BigEndian(n, 4)
    case U64(n) => BigEndian(n, 8)
    case Short(s) => s
    case Name(s) => s
    case LongName(s) => s
    case Items(ws) => Bytes16(ws)
  }

  /** The TLVs of the first k fields. */
  function Written(u: Update, k: nat): seq<Tlv>
    requires k <= 21
  {
    if k == 0 then []
    else Written(u, k - 1) + if FieldOf(u, k - 1).Some? then [Tlv(k - 1, Octets(FieldOf(u, k - 1).value))] else []
  }

  // ---- What can be said ----

  function Power(width: nat): nat {
    if width == 0 then 1 else 256 * Power(width - 1)
  }

  /** The value fits its field. */
  predicate FitsField(id: nat, v: Value) {
    match v
    case U8(n) => n < 0x100
    case U16(n) => n < 0x1_0000
    case U32(n) => n < 0x1_0000_0000
    case U64(n) => n < 0x1_0000_0000_0000_0000
    case Short(s) => 0 !in s && |s| <= 63
    case Name(s) => 0 !in s && |s| <= 63 && |Slashed(Lines(s))| <= 63
    case LongName(s) => 0 !in s && |s| <= 255 && |Slashed(Lines(s))| <= 252
    case Items(ws) => |ws| <= (if id == 0 then 8 else 16) && forall i :: 0 <= i < |ws| ==> ws[i] < 0x1_0000
  }

  predicate Writable(u: Update) {
    forall id :: 0 <= id < 21 && FieldOf(u, id).Some? ==> FitsField(id, FieldOf(u, id).value)
  }

  /** What is to be read of a value: of a name the lines with slashes in between. */
  function Shown(v: Value): Content {
    match v
    case U8(n) => NumberIs(n)
    case U16(n) => NumberIs(n)
    case U32(n) => NumberIs(n)
    case U64(n) => NumberIs(n)
    case Short(s) => StringIs(s)
    case Name(s) => StringIs(Slashed(Lines(s)))
    case LongName(s) => StringIs(Slashed(Lines(s)))
    case Items(ws) => ListIs(ws)
  }

  // ---- Reading what was written ----

  lemma {:induction false} BigReads(n: nat, width: nat)
    ensures n < Power(width) ==> Big(BigEndian(n, width)) == n
  {
    if width > 0 {
      BigReads(n / 256, width - 1);
      assert BigEndian(n, width)[..width - 1] == BigEndian(n / 256, width - 1);
    }
  }

  lemma Powers()
    ensures Power(1) == 0x100 && Power(2) == 0x1_0000 && Power(4) == 0x1_0000_0000
    ensures Power(8) == 0x1_0000_0000_0000_0000
  {
    assert Power(3) == 256 * Power(2);
    assert Power(5) == 256 * Power(4) && Power(6) == 256 * Power(5) && Power(7) == 256 * Power(6);
  }

  lemma {:induction false} WordsRead(ws: seq<nat>, max: nat)
    requires |ws| <= max && forall i :: 0 <= i < |ws| ==> ws[i] < 0x1_0000
    ensures WordsOf(Bytes16(ws), max) == ws
  {
    if ws != [] {
      var b := Bytes16(ws);
      assert b[2..] == Bytes16(ws[1..]);
      WordsRead(ws[1..], max - 1);
      WordReads(ws[0]);
      assert b[0] == BigEndian(ws[0], 2)[0] && b[1] == BigEndian(ws[0], 2)[1];
      assert ws == [ws[0]] + ws[1..];
    }
  }

  lemma WordReads(w: nat)
    requires w < 0x1_0000
    ensures FromBe16(BigEndian(w, 2)[0], BigEndian(w, 2)[1]) == w
  {
    assert BigEndian(w, 2) == BigEndian(w / 256, 1) + [w % 256];
    assert BigEndian(w / 256, 1) == BigEndian(w / 256 / 256, 0) + [w / 256 % 256];
  }

  /** A text that fits is stored whole. */
  lemma WholeText(s: seq<byte>, n: nat)
    requires 0 !in s && |s| <= n
    ensures Truncated(s, n) == s
  {
    hide CString;
    TruncatedClean(s, n);
  }

  lemma NameReads(s: seq<byte>, size: nat)
    requires 0 !in s && |s| < size <= SCRATCH && |Slashed(Lines(s))| <= 252 && |Slashed(Lines(s))| < size
    ensures TextOf(size, true, s) == Slashed(Lines(s))
  {
    hide CString, Joined, Truncated, Slashed, Lines;
    WholeText(s, size - 1);
    assert Joined(s, 0) == Slashed(Lines(s)) by {
      JoinedIsSlashed(s, 0);
    }
    WholeText(Joined(s, 0), size - 1);
    TextIs(size, s);
  }

  lemma TextIs(size: nat, s: seq<byte>)
    requires size >= 1
    ensures TextOf(size, true, s) == Truncated(Joined(Truncated(s, size - 1), 0), size - 1)
  {
  }

  /** The kind of a value. */
  function KindOfValue(id: nat, v: Value): Kind {
    match v
    case U8(_) => Scalar(1)
    case U16(_) => Scalar(2)
    case U32(_) => Scalar(4)
    case U64(_) => Scalar(8)
    case Short(_) => Text(64, false)
    case Name(_) => Text(64, true)
    case LongName(_) => Text(256, true)
    case Items(_) => List(if id == 0 then 8 else 16)
  }

  /** The parser has for every field the kind of the value that the phone sends in it. */
  lemma KindIs(u: Update, id: nat)
    requires id < 21 && FieldOf(u, id).Some?
    ensures KindOf(id) == KindOfValue(id, FieldOf(u, id).value)
  {
  }

  /** The bytes of a value mean what it says. */
  lemma ValueMeans(id: nat, v: Value)
    requires FitsField(id, v)
    ensures Meaning(KindOfValue(id, v), Octets(v)) == Some(Shown(v))
  {
    hide BigEndian, Bytes16, TextOf, WordsOf, Big, Slashed, Lines;
    Powers();
    match v
    case U8(n) => NumberReads(n, 1);
    case U16(n) => NumberReads(n, 2);
    case U32(n) => NumberReads(n, 4);
    case U64(n) => NumberReads(n, 8);
    case Short(s) => ShortReads(s);
    case Name(s) => NameReads(s, 64);
    case LongName(s) => NameReads(s, 256);
    case Items(ws) => WordsRead(ws, if id == 0 then 8 else 16);
  }

  /** The parser takes the bytes of a value for what it says. */
  lemma ValueReads(u: Update, id: nat)
    requires id < 21 && FieldOf(u, id).Some? && FitsField(id, FieldOf(u, id).value)
    ensures Meaning(KindOf(id), Octets(FieldOf(u, id).value)) == Some(Shown(FieldOf(u, id).value))
  {
    hide KindOf, FieldOf, Meaning, Octets, Shown, FitsField, KindOfValue;
    KindIs(u, id);
    ValueMeans(id, FieldOf(u, id).value);
  }

  lemma NumberReads(n: nat, width: nat)
    requires n < Power(width)
    ensures Meaning(Scalar(width), BigEndian(n, width)) == Some(NumberIs(n))
  {
    BigReads(n, width);
    assert BigEndian(n, width)[..width] == BigEndian(n, width);
  }

  lemma ShortReads(s: seq<byte>)
    requires 0 !in s && |s| <= 63
    ensures TextOf(64, false, s) == s
  {
    WholeText(s, 63);
  }

  /** Of all TLVs that were written the one of a field is the one about it. */
  lemma {:induction false} LatestWritten(u: Update, k: nat, id: nat)
    requires id < 21 && k <= 21 && Writable(u)
    ensures Latest(Written(u, k), id)
              == if id < k && FieldOf(u, id).Some? then Some(Shown(FieldOf(u, id).value)) else None
    decreases k
  {
    hide FieldOf, Octets, Meaning, KindOf, Shown, FitsField;
    if k > 0 {
      LatestWritten(u, k - 1, id);
      var before := Written(u, k - 1);
      if FieldOf(u, k - 1).Some? {
        var t := Tlv(k - 1, Octets(FieldOf(u, k - 1).value));
        assert Written(u, k) == before + [t] && (before + [t])[..|before|] == before;
        ValueReads(u, k - 1);
      } else {
        assert Written(u, k) == before;
      }
    }
  }

  lemma ValueSize(id: nat, v: Value)
    requires FitsField(id, v)
    ensures |Octets(v)| <= 255
  {
    hide BigEndian, Slashed, Lines;
    if v.Items? {
      WordsSize(v.ws);
    }
  }

  lemma {:induction false} WordsSize(ws: seq<nat>)
    ensures |Bytes16(ws)| == 2 * |ws|
  {
    if ws != [] {
      WordsSize(ws[1..]);
    }
  }

  lemma {:induction false} WrittenFit(u: Update, k: nat)
    requires k <= 21 && Writable(u)
    ensures AllFit(Written(u, k))
  {
    hide FieldOf, Octets, FitsField;
    if k > 0 {
      WrittenFit(u, k - 1);
      if FieldOf(u, k - 1).Some? {
        ValueSize(k - 1, FieldOf(u, k - 1).value);
      }
    }
  }

  /** The message that says all this. */
  function Message(header: seq<byte>, u: Update): seq<byte> {
    header + EncodeAll(Written(u, 21))
  }

  /** Round trip: of every update that was written exactly the fields that it has are read, with what they say. */
  lemma UpdateRoundTrip(header: seq<byte>, u: Update, id: nat)
    requires |header| == HEADER && Writable(u) && id < 21
    ensures var f, v := Parse(Message(header, u))[id], FieldOf(u, id);
            && (f.data.Words? ==> f.data.count <= |f.data.items|)
            && (f.present <==> v.Some?)
            && (v.Some? ==> ContentOf(f.data) == Shown(v.value))
  {
    hide FieldOf, EncodeAll, Tlvs, Fold, Zero, KindOf, Latest, Shown, Valid, FitsField;
    var ts := Written(u, 21);
    WrittenFit(u, 21);
    RoundTrip(header, ts);
    LatestWritten(u, 21, id);
    FieldFits(Fold(Zero(), ts), id);
    FieldFits(Zero(), id);
    FoldMeans(Zero(), ts, id);
    ZeroMeans(id);
  }
}
