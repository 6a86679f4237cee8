/**
The 0x5202 message from the side of the phone: a writer of maneuvers, with the type of every field, and the round trip
through the parser of rgd_tlv.c.
*/
module ManeuverMessage {
  import opened Bytes
  import opened ManeuverParse
  import opened Newlines
  import opened RouteUpdateTheorems
  import opened Sequences
  import opened Tlv
  import opened Wrappers
  import R = RouteMessage
  import S = RgdSlots
  import U = RouteUpdate

  /** A value like those of an update, junction angles, or the text of an exit. */
  datatype Value = Like(v: R.Value) | JunctionAngles(ws: seq<nat>) | ExitInfo(s: seq<byte>)

  /** Everything that a message about a maneuver can say. */
  datatype Maneuver = Maneuver(
    components: Option<seq<nat>>,
    index: Option<nat>,
    description: Option<seq<byte>>,
    kind: Option<nat>,
    afterRoad: Option<seq<byte>>,
    distance: Option<nat>,
    distanceText: Option<seq<byte>>,
    distanceUnits: Option<nat>,
    drivingSide: Option<nat>,
    junction: Option<nat>,
    angles: Option<seq<nat>>,
    exitAngle: Option<nat>,
    linkedLanes: Option<nat>,
    exitInfo: Option<seq<byte>>)

  /** The fields by their numbers. */
  function FieldOf(m: Maneuver, id: nat): Option<Value>
    requires id < 14
  {
    match id
    case 0 => R.Map(ws => Like(R.Items(ws)), m.components)
    case 1 => R.Map(n => Like(R.U16(n)), m.index)
    case 2 => R.Map(s => Like(R.LongName(s)), m.description)
    case 3 => R.Map(n => Like(R.U8(n)), m.kind)
    case 4 => R.Map(s => Like(R.LongName(s)), m.afterRoad)
    case 5 => R.Map(n => Like(R.U32(n)), m.distance)
    case 6 => R.Map(s => Like(R.Short(s)), m.distanceText)
    case 7 => R.Map(n => Like(R.U8(n)), m.distanceUnits)
    case 8 => R.Map(n => Like(R.U8(n)), m.drivingSide)
    case 9 => R.Map(n => Like(R.U8(n)), m.junction)
    case 10 => R.Map(ws => JunctionAngles(ws), m.angles)
    case 11 => R.Map(n => Like(R.U16(n)), m.exitAngle)
    case 12 => R.Map(n => Like(R.U16(n)), m.linkedLanes)
    case 13 => R.Map(s => ExitInfo(s), m.exitInfo)
  }

  function Octets(v: Value): seq<byte> {
    match v
    case Like(w) => R.Octets(w)
    case JunctionAngles(ws) => R.Bytes16(ws)
    case ExitInfo(s) => s
  }

  /** The TLVs of the first k fields. */
  function Written(m: Maneuver, k: nat): seq<Tlv>
    requires k <= 14
  {
    if k == 0 then []
    else Written(m, k - 1) + if FieldOf(m, k - 1).Some? then [Tlv(k - 1, Octets(FieldOf(m, k - 1).value))] else []
  }

  predicate FitsField(id: nat, v: Value) {
    match v
    case Like(w) => R.FitsField(id, w)
    case JunctionAngles(ws) => |ws| <= 16 && forall i :: 0 <= i < |ws| ==> ws[i] < 0x1_0000
    case ExitInfo(s) => 0 !in s && |s| <= 256
  }

  predicate Writable(m: Maneuver) {
    forall id :: 0 <= id < 14 && FieldOf(m, id).Some? ==> FitsField(id, FieldOf(m, id).value)
  }

  /** Control characters and DEL show as question marks. */
  function Visible(c: byte): byte {
    if c < 0x20 || c == 0x7F then 0x3F else c
  }

  function Shown(v: Value): Content {
    match v
    case Like(w) => R.Shown(w)
    case JunctionAngles(ws) => ListIs(ws)
    case ExitInfo(s) => StringIs(seq(|s|, i requires 0 <= i < |s| => Visible(s[i])))
  }

  // ---- What is stored ----

  /** What a value says in a field of this kind, if it is long enough; junction angles are for a field without any. */
  function MeaningOf(kind: Kind, value: seq<byte>): Option<Content>
    requires kind.Plain? && kind.kind.Text? ==> kind.kind.size >= 1
  {
    match kind
    case Plain(k) => Meaning(k, value)
    case Collect(max) => Some(ListIs(U.WordsOf(value, max)))
    case Preview(_) => Some(StringIs(ExitText(value)))
  }

  lemma ExitTextReads(s: seq<byte>)
    requires 0 !in s && |s| <= 256
    ensures ExitText(s) == seq(|s|, i requires 0 <= i < |s| => Visible(s[i]))
  {
    hide U.CString;
    R.WholeText(s, 256);
    assert |s| == 256 ==> s[..256] == s;
    forall i | 0 <= i < |s| ensures s[i] != 0 && ManeuverParse.Shown(s[i]) == Visible(s[i]) {
      assert s[i] in s;
    }
  }

  lemma AnglesRead(ws: seq<nat>, max: nat)
    requires |ws| <= max && forall i :: 0 <= i < |ws| ==> ws[i] < 0x1_0000
    ensures U.WordsOf(R.Bytes16(ws), max) == ws
  {
    R.WordsRead(ws, max);
  }

  /** The parser has for every field the kind of the value that the phone sends in it. */
  function KindOfValue(id: nat, v: Value): Kind {
    match v
    case Like(w) => Plain(R.KindOfValue(id, w))
    case JunctionAngles(_) => Collect(16)
    case ExitInfo(_) => Preview(257)
  }

  lemma KindIs(m: Maneuver, id: nat)
    requires id < 14 && FieldOf(m, id).Some?
    ensures KindOf(id) == KindOfValue(id, FieldOf(m, id).value)
  {
  }

  lemma ValueReads(m: Maneuver, id: nat)
    requires id < 14 && FieldOf(m, id).Some? && FitsField(id, FieldOf(m, id).value)
    ensures MeaningOf(KindOf(id), Octets(FieldOf(m, id).value)) == Some(Shown(FieldOf(m, id).value))
  {
    hide FieldOf, KindOf, Meaning, R.Octets, R.Shown, R.FitsField, ExitText;
    var v := FieldOf(m, id).value;
    KindIs(m, id);
    match v
    case Like(w) => R.ValueMeans(id, w);
    case JunctionAngles(ws) => AnglesRead(ws, 16);
    case ExitInfo(s) => ExitTextReads(s);
  }

  // ---- Parsing keeps the last ----

  /** What the TLVs say about a field other than the junction angles: the last one that is long enough counts. */
  function LatestOf(ts: seq<Tlv>, id: nat): Option<Content>
    requires id < 14
    decreases |ts|
  {
    if ts == [] then None
    else
      var t := ts[|ts| - 1];
      if t.id == id && MeaningOf(KindOf(id), t.value).Some? then MeaningOf(KindOf(id), t.value)
      else LatestOf(ts[..|ts| - 1], id)
  }

  /** A field as the parser leaves it says c, or is absent. */
  predicate Says(f: U.Field, c: Option<Content>) {
    && (f.data.Words? ==> f.data.count <= |f.data.items|)
    && (f.present <==> c.Some?)
    && (c.Some? ==> ContentOf(f.data) == c.value)
  }

  lemma StoreSays(kind: Kind, f: U.Field, value: seq<byte>)
    requires Fits(kind, f) && !kind.Collect? && (kind.Plain? && kind.kind.Text? ==> kind.kind.size >= 1)
    requires kind.Preview? ==> kind.size == EXIT_TEXT
    ensures match MeaningOf(kind, value)
            case None => Store(kind, f, value) == f
            case Some(c) => Says(Store(kind, f, value), Some(c))
  {
    hide U.CString, U.Copied, U.Joined, U.WordsOf, U.Big, U.Store, ExitText, Meaning;
    match kind
    case Plain(k) =>
      StoreMeans(k, f, value);
      PlainFits(k, f, value);
    case Preview(_) =>
      CopiedString(f.data.buf, ExitText(value));
      R.WholeText(ExitText(value), EXIT_TEXT - 1);
  }

  lemma PlainFits(kind: U.Kind, f: U.Field, value: seq<byte>)
    requires U.Fits(kind, f)
    ensures var d := U.Store(kind, f, value).data; d.Words? ==> d.count <= |d.items|
  {
  }

  lemma BlankSays(id: nat)
    requires id < 14
    ensures Says(Empty()[id], None)
  {
  }

  lemma {:induction false} FoldSays(ts: seq<Tlv>, id: nat)
    requires id < 14 && id != 10
    ensures Says(Fold(Empty(), ts)[id], LatestOf(ts, id))
    decreases |ts|
  {
    hide Empty, Store, MeaningOf, KindOf, Says;
    if ts == [] {
      BlankSays(id);
    } else {
      var before, t := ts[..|ts| - 1], ts[|ts| - 1];
      FoldSays(before, id);
      if t.id == id {
        ManeuverParse.FieldFits(Fold(Empty(), before), id);
        NoCollect(id);
        StoreSays(KindOf(id), Fold(Empty(), before)[id], t.value);
      }
    }
  }

  lemma NoCollect(id: nat)
    requires id < 14 && id != 10
    ensures !KindOf(id).Collect? && (KindOf(id).Preview? ==> KindOf(id).size == EXIT_TEXT)
  {
  }

  // ---- The round trip ----

  /** Of all TLVs that were written the one of a field is the one about it. */
  lemma {:induction false} LatestWritten(m: Maneuver, k: nat, id: nat)
    requires id < 14 && k <= 14 && Writable(m)
    ensures LatestOf(Written(m, k), id)
              == if id < k && FieldOf(m, id).Some? then Some(Shown(FieldOf(m, id).value)) else None
    decreases k
  {
    hide FieldOf, Octets, MeaningOf, KindOf, Shown, FitsField;
    if k > 0 {
      LatestWritten(m, k - 1, id);
      var before := Written(m, k - 1);
      if FieldOf(m, k - 1).Some? {
        var t := Tlv(k - 1, Octets(FieldOf(m, k - 1).value));
        assert Written(m, k) == before + [t] && (before + [t])[..|before|] == before;
        ValueReads(m, k - 1);
      } else {
        assert Written(m, k) == before;
      }
    }
  }

  /** And there is one TLV with angles, if there are any to be written. */
  lemma {:induction false} AnglesWritten(m: Maneuver, k: nat)
    requires k <= 14 && Writable(m)
    ensures Angles(Written(m, k)) == if k > 10 && m.angles.Some? then m.angles.value else []
    ensures HasAngles(Written(m, k)) <==> k > 10 && m.angles.Some?
    decreases k
  {
    hide Octets, U.WordsOf, FitsField, R.Bytes16;
    if k > 0 {
      AnglesWritten(m, k - 1);
      var before := Written(m, k - 1);
      if FieldOf(m, k - 1).Some? {
        var t := Tlv(k - 1, Octets(FieldOf(m, k - 1).value));
        assert Written(m, k) == before + [t] && (before + [t])[..|before|] == before;
        if k == 11 {
          TenIsAngles(m);
          R.WordsSize(m.angles.value);
          AnglesRead(m.angles.value, |t.value|);
        }
      } else {
        assert Written(m, k) == before;
      }
    }
  }

  lemma TenIsAngles(m: Maneuver)
    requires Writable(m) && m.angles.Some?
    ensures FieldOf(m, 10) == Some(JunctionAngles(m.angles.value)) && FitsField(10, FieldOf(m, 10).value)
    ensures Octets(FieldOf(m, 10).value) == R.Bytes16(m.angles.value)
    ensures |m.angles.value| <= 16 && forall i :: 0 <= i < |m.angles.value| ==> m.angles.value[i] < 0x1_0000
  {
  }

  predicate HasAngles(ts: seq<Tlv>) {
    ts != [] && (ts[|ts| - 1].id == ANGLES || HasAngles(ts[..|ts| - 1]))
  }

  lemma {:induction false} AnglesPresent(ts: seq<Tlv>)
    ensures Fold(Empty(), ts)[ANGLES].present <==> HasAngles(ts)
    decreases |ts|
  {
    hide Empty, Collected, U.Store;
    if ts == [] {
      BlankSays(ANGLES);
    } else {
      AnglesPresent(ts[..|ts| - 1]);
    }
  }

  lemma OctetsFit(m: Maneuver, id: nat)
    requires id < 14 && FieldOf(m, id).Some? && FitsField(id, FieldOf(m, id).value)
    ensures |Octets(FieldOf(m, id).value)| <= 256
  {
    hide FieldOf, R.BigEndian, Slashed, Lines, R.Octets, R.FitsField;
    match FieldOf(m, id).value
    case Like(w) => R.ValueSize(id, w);
    case JunctionAngles(ws) => R.WordsSize(ws);
    case ExitInfo(_) =>
  }

  lemma {:induction false} WrittenFit(m: Maneuver, k: nat)
    requires k <= 14 && Writable(m)
    ensures AllFit(Written(m, k))
  {
    hide FieldOf, Octets, FitsField;
    if k > 0 {
      WrittenFit(m, k - 1);
      if FieldOf(m, k - 1).Some? {
        OctetsFit(m, k - 1);
      }
    }
  }

  /** The message that says all this. */
  function Message(header: seq<byte>, m: Maneuver): seq<byte> {
    header + EncodeAll(Written(m, 14))
  }

  /** What is to be read of a field: what was written, or 1000 for the exit angle of a maneuver that has an index. */
  function Expected(m: Maneuver, id: nat): Option<Content>
    requires id < 14
  {
    if id == 11 && m.exitAngle.None? && m.index.Some? then Some(NumberIs(1000))
    else if FieldOf(m, id).Some? then Some(Shown(FieldOf(m, id).value))
    else None
  }

  lemma FoldedReads(m: Maneuver, id: nat)
    requires Writable(m) && id < 14
    ensures Says(Fold(Empty(), Written(m, 14))[id],
                 if FieldOf(m, id).Some? then Some(Shown(FieldOf(m, id).value)) else None)
  {
    hide FieldOf, Empty, Fold, LatestOf, Shown, First, FitsField;
    var ts := Written(m, 14);
    if id == 10 {
      hide Written;
      AnglesAreCollected(ts);
      AnglesPresent(ts);
      AnglesWritten(m, 14);
      TenShown(m);
    } else {
      FoldSays(ts, id);
      LatestWritten(m, 14, id);
    }
  }

  lemma TenShown(m: Maneuver)
    requires Writable(m)
    ensures FieldOf(m, 10).Some? <==> m.angles.Some?
    ensures m.angles.Some? ==> Shown(FieldOf(m, 10).value) == ListIs(m.angles.value)
    ensures m.angles.Some? ==> First(m.angles.value, MAX_ANGLES) == m.angles.value
  {
    if m.angles.Some? {
      TenIsAngles(m);
    }
  }

  /** Round trip: of every maneuver that was written exactly the fields that it has are read, with what they say. */
  lemma ManeuverRoundTrip(header: seq<byte>, m: Maneuver, id: nat)
    requires |header| == S.HEADER && Writable(m) && id < 14
    ensures Says(Parse(Message(header, m))[id], Expected(m, id))
  {
    hide EncodeAll, Tlvs, Fold, Empty, Shown, FitsField, Written;
    var ts := Written(m, 14);
    WrittenFit(m, 14);
    RoundTrip(header, ts);
    FoldedReads(m, id);
    FoldedReads(m, 1);
    FoldedReads(m, 11);
  }
}
