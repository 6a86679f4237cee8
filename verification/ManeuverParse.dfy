/**
Maneuvers (message 0x5202): how rgd_tlv.c parses one into a struct. Most fields are kept like those of a route
update; junction angles come one to a TLV and are collected, and the exit text is made printable.
*/
module ManeuverParse {
  import opened Bytes
  import opened RgdSlots
  import opened Sequences
  import opened Tlv
  import opened Wrappers
  import U = RouteUpdate

  const FIELDS: nat := 14
  const INDEX: nat := 1
  const TYPE: nat := 3
  const ANGLES: nat := 10
  const EXIT_ANGLE: nat := 11
  const LINK: nat := 12
  const EXIT_INFO: nat := 13
  const MAX_ANGLES: nat := 16
  const EXIT_TEXT: nat := 257
  const NO_ANGLE: nat := 1000

  datatype Kind = Plain(kind: U.Kind) | Collect(max: nat) | Preview(size: nat)

  function KindOf(id: nat): (k: Kind)
    requires id < FIELDS
    ensures k.Plain? && k.kind.Text? ==> 1 <= k.kind.size <= U.SCRATCH
    ensures k.Preview? ==> k.size == EXIT_TEXT
  {
    match id
    case 0 => Plain(U.List(8))
    case 1 => Plain(U.Scalar(2))
    case 2 => Plain(U.Text(256, true))
    case 4 => Plain(U.Text(256, true))
    case 5 => Plain(U.Scalar(4))
    case 6 => Plain(U.Text(64, false))
    case 10 => Collect(MAX_ANGLES)
    case 11 => Plain(U.Scalar(2))
    case 12 => Plain(U.Scalar(2))
    case 13 => Preview(EXIT_TEXT)
    case _ => Plain(U.Scalar(1))
  }

  predicate Fits(kind: Kind, f: U.Field) {
    match kind
    case Plain(k) => U.Fits(k, f)
    case Collect(max) => f.data.Words? && f.data.count <= |f.data.items| == max
    case Preview(size) => f.data.Chars? && |f.data.buf| == size && 0 in f.data.buf
  }

  predicate Valid(m: seq<U.Field>) {
    |m| == FIELDS && forall id :: 0 <= id < FIELDS ==> Fits(KindOf(id), m[id])
  }

  function Blank(id: nat): (f: U.Field)
    requires id < FIELDS
    ensures Fits(KindOf(id), f) && !f.present
  {
    match KindOf(id)
    case Plain(k) => if id == LINK then U.Field(false, U.Number(EMPTY)) else U.ZeroField(k)
    case Collect(max) => U.ZeroField(U.List(max))
    case Preview(size) => U.ZeroField(U.Text(size, false))
  }

  /** memset, and the link that stands for none. */
  function Empty(): (m: seq<U.Field>)
    ensures Valid(m)
  {
    seq(FIELDS, id requires 0 <= id < FIELDS => Blank(id))
  }

  /** One character of the exit text: control characters and DEL are replaced. */
  function Shown(c: byte): (r: byte)
    requires c != 0
    ensures r != 0 && (r >= 0x20 && r != 0x7F) && (c >= 0x20 && c != 0x7F ==> r == c)
  {
    if c >= 0x80 || 0x20 <= c <= 0x7E then c else 0x3F
  }

  function Printable(s: seq<byte>): (r: seq<byte>)
    requires 0 !in s
    ensures |r| == |s| && 0 !in r
  {
    seq(|s|, i requires 0 <= i < |s| => assert s[i] in s; Shown(s[i]))
  }

  /** What the exit text of a value is: up to its first NUL, cut to what fits. */
  function ExitText(value: seq<byte>): (s: seq<byte>)
    ensures 0 !in s && |s| < EXIT_TEXT
  {
    Printable(U.CString(if |value| < EXIT_TEXT then value else value[..EXIT_TEXT - 1]))
  }

  function Collected(items: seq<nat>, count: nat, value: seq<byte>): (f: U.Data)
    requires count <= |items|
    ensures f.Words? && f.count <= |f.items| == |items|
  {
    var ws := U.WordsOf(value, |items| - count);
    U.Words(count + |ws|, items[..count] + ws + items[count + |ws|..])
  }

  /** One case of the switch. */
  function Store(kind: Kind, f: U.Field, value: seq<byte>): (r: U.Field)
    requires Fits(kind, f)
    ensures Fits(kind, r)
  {
    match kind
    case Plain(k) => U.Store(k, f, value)
    case Collect(_) => U.Field(true, Collected(f.data.items, f.data.count, value))
    case Preview(_) => U.Field(true, U.Chars(U.Copied(f.data.buf, ExitText(value))))
  }

  function Step(m: seq<U.Field>, t: Tlv): (r: seq<U.Field>)
    requires Valid(m)
    ensures Valid(r)
  {
    if t.id >= FIELDS then m else m[t.id := Store(KindOf(t.id), m[t.id], t.value)]
  }

  function Fold(m: seq<U.Field>, ts: seq<Tlv>): (r: seq<U.Field>)
    requires Valid(m)
    ensures Valid(r)
    decreases |ts|
  {
    if ts == [] then m else Step(Fold(m, ts[..|ts| - 1]), ts[|ts| - 1])
  }

  /** A maneuver with an index but no exit angle gets the one that stands for none. */
  function WithExitAngle(m: seq<U.Field>): (r: seq<U.Field>)
    requires Valid(m)
    ensures Valid(r)
  {
    if m[INDEX].present && !m[EXIT_ANGLE].present then m[EXIT_ANGLE := U.Field(true, U.Number(NO_ANGLE))] else m
  }

  function Parse(message: seq<byte>): (m: seq<U.Field>)
    ensures Valid(m)
  {
    WithExitAngle(Fold(Empty(), RgdSlots.ParseManeuver(message).tlvs))
  }

  // ---- The code ----

  /** copy_printable_string_preview */
  method CopyPrintable(value: seq<byte>, buf: seq<byte>) returns (r: seq<byte>)
    requires |buf| == EXIT_TEXT
    ensures r == U.Copied(buf, ExitText(value))
  {
    hide U.CString;
    var most := if |value| < EXIT_TEXT then |value| else EXIT_TEXT - 1;
    ghost var cut := if |value| < EXIT_TEXT then value else value[..EXIT_TEXT - 1];
    ghost var all := U.CString(cut);
    var n := 0;
    r := buf;
    while n < most && value[n] != 0
      invariant n <= |all| && n <= most && |r| == EXIT_TEXT
      invariant r[..n] == Printable(all)[..n] && r[n..] == buf[n..]
    {
      InString(cut, n);
      r := r[n := Shown(value[n])];
      n := n + 1;
    }
    StringEndsAt(cut, n);
    ghost var was := r;
    assert was[..n] == ExitText(value);
    assert was[n + 1..] == was[n..][1..] == buf[n + 1..];
    r := r[n := 0];
    assert r == was[..n] + [0] + was[n + 1..];
  }

  lemma InString(cut: seq<byte>, n: nat)
    requires n <= |U.CString(cut)| && n < |cut| && cut[n] != 0
    ensures n < |U.CString(cut)| && U.CString(cut)[n] == cut[n]
  {
    hide U.CString;
    U.StringEnds(cut);
  }

  lemma StringEndsAt(cut: seq<byte>, n: nat)
    requires n <= |U.CString(cut)| && (n == |cut| || cut[n] == 0)
    ensures n == |U.CString(cut)|
  {
    hide U.CString;
    var s := U.CString(cut);
    assert forall i :: 0 <= i < |s| ==> cut[i] == s[i] && s[i] != 0;
  }

  /** The loop that collects junction angles behind those already there. */
  method CollectWords(items: seq<nat>, count: nat, value: seq<byte>) returns (d: U.Data)
    requires count <= |items|
    ensures d == Collected(items, count, value)
  {
    hide U.WordsOf;
    var i, n, r := 0, count, items;
    ghost var ws: seq<nat> := [];
    while i + 1 < |value| && n < |items|
      invariant i == 2 * |ws| && i <= |value| && n == count + |ws| <= |items|
      invariant r == items[..count] + ws + items[n..]
      invariant U.WordsOf(value, |items| - count) == ws + U.WordsOf(value[i..], |items| - n)
      decreases |items| - n
    {
      WordsStep(value, i, |items| - n);
      var w := Word(value, i);
      r := r[n := w];
      ghost var more := ws + [w];
      ghost var rest := U.WordsOf(value[i + 2..], |items| - n - 1);
      assert ws + ([w] + rest) == more + rest;
      ws := more;
      n, i := n + 1, i + 2;
    }
    WordsStep(value, i, |items| - n);
    assert ws + [] == ws;
    d := U.Words(n, r);
  }

  lemma WordsStep(value: seq<byte>, i: nat, max: nat)
    requires i <= |value|
    ensures i + 1 < |value| && max > 0 ==>
              U.WordsOf(value[i..], max) == [Word(value, i)] + U.WordsOf(value[i + 2..], max - 1)
    ensures i + 1 >= |value| || max == 0 ==> U.WordsOf(value[i..], max) == []
  {
    if i + 1 < |value| {
      assert value[i..][2..] == value[i + 2..];
    }
  }

  method StoreField(kind: Kind, f: U.Field, value: seq<byte>) returns (r: U.Field)
    requires Fits(kind, f) && (kind.Plain? && kind.kind.Text? ==> 1 <= kind.kind.size <= U.SCRATCH)
    requires kind.Preview? ==> kind.size == EXIT_TEXT
    ensures r == Store(kind, f, value)
  {
    hide U.Copied, U.WordsOf;
    match kind
    case Plain(k) =>
      r := U.StoreField(k, f, value);
    case Collect(_) =>
      var d := CollectWords(f.data.items, f.data.count, value);
      r := U.Field(true, d);
    case Preview(_) =>
      var buf := CopyPrintable(value, f.data.buf);
      r := U.Field(true, U.Chars(buf));
  }

  /** rgd_parse_maneuver */
  method ParseManeuverMessage(message: seq<byte>) returns (m: seq<U.Field>)
    ensures m == Parse(message)
  {
    hide Store, Empty, Tlvs, KindOf;
    m := Empty();
    ghost var seen, all := [], RgdSlots.ParseManeuver(message).tlvs;
    if |message| >= HEADER {
      var off := HEADER;
      while off + 4 <= |message|
        invariant off <= |message| && all == seen + Tlvs(message, off) && m == Fold(Empty(), seen)
        decreases |message| - off
      {
        var length, id := Word(message, off), Word(message, off + 2);
        TlvsUnfold(message, off);
        if length < 4 || off + length > |message| {
          break;
        }
        var value := message[off + 4..off + length];
        ghost var t := Tlv(id, value);
        assert all == (seen + [t]) + Tlvs(message, off + length) && (seen + [t])[..|seen|] == seen;
        if id < FIELDS {
          var f := StoreField(KindOf(id), m[id], value);
          m := m[id := f];
        }
        seen := seen + [t];
        off := off + length;
      }
      TlvsUnfold(message, off);
      assert all == seen;
    }
    if m[INDEX].present && !m[EXIT_ANGLE].present {
      m := m[EXIT_ANGLE := U.Field(true, U.Number(NO_ANGLE))];
    }
  }

  // ---- What the parsed fields say ----

  /** All angles of a message, in order. */
  function Angles(ts: seq<Tlv>): seq<nat> {
    if ts == [] then []
    else
      var t := ts[|ts| - 1];
      Angles(ts[..|ts| - 1]) + if t.id == ANGLES then U.WordsOf(t.value, |t.value|) else []
  }

  lemma {:induction false} WordsOfFirst(value: seq<byte>, max: nat, all: nat)
    requires all >= |value|
    ensures U.WordsOf(value, max) == First(U.WordsOf(value, all), max)
    decreases |value|
  {
    if max > 0 && |value| >= 2 {
      WordsOfFirst(value[2..], max - 1, all - 1);
    }
  }

  lemma CollectedFront(items: seq<nat>, count: nat, value: seq<byte>)
    requires count <= |items|
    ensures var d := Collected(items, count, value);
            d.items[..d.count] == items[..count] + U.WordsOf(value, |items| - count)
  {
  }

  lemma StepAngles(m: seq<U.Field>, t: Tlv)
    requires Valid(m) && Fits(Collect(MAX_ANGLES), m[ANGLES])
    ensures var f := m[ANGLES];
            Step(m, t)[ANGLES].data == if t.id == ANGLES then Collected(f.data.items, f.data.count, t.value) else f.data
  {
    hide Collected, U.Store;
  }

  lemma AnglesStep(ts: seq<Tlv>)
    requires ts != []
    ensures var f, g := Fold(Empty(), ts[..|ts| - 1])[ANGLES], Fold(Empty(), ts)[ANGLES];
            var t := ts[|ts| - 1];
            && Fits(Collect(MAX_ANGLES), f)
            && g.data == if t.id == ANGLES then Collected(f.data.items, f.data.count, t.value) else f.data
  {
    hide Empty, Collected, Step, Store, KindOf;
    FieldFits(Fold(Empty(), ts[..|ts| - 1]), ANGLES);
    StepAngles(Fold(Empty(), ts[..|ts| - 1]), ts[|ts| - 1]);
  }

  /** The angles of all TLVs are collected, the first 16 of them. */
  lemma {:induction false} AnglesAreCollected(ts: seq<Tlv>)
    ensures var f := Fold(Empty(), ts)[ANGLES];
            Fits(Collect(MAX_ANGLES), f) && f.data.items[..f.data.count] == First(Angles(ts), MAX_ANGLES)
    decreases |ts|
  {
    hide U.WordsOf, Empty, Collected, First, KindOf, Step;
    FieldFits(Fold(Empty(), ts), ANGLES);
    if ts == [] {
      EmptyAngles();
    } else {
      var before, t := ts[..|ts| - 1], ts[|ts| - 1];
      AnglesAreCollected(before);
      AnglesStep(ts);
      var f := Fold(Empty(), before)[ANGLES];
      if t.id == ANGLES {
        CollectMore(f.data.items, f.data.count, Angles(before), t.value);
      } else {
        assert Angles(ts) == Angles(before);
      }
    }
  }

  lemma FieldFits(m: seq<U.Field>, id: nat)
    requires Valid(m) && id < FIELDS
    ensures Fits(KindOf(id), m[id])
    ensures id == ANGLES ==> Fits(Collect(MAX_ANGLES), m[id])
  {
  }

  lemma EmptyAngles()
    ensures Empty()[ANGLES].data.Words? && Empty()[ANGLES].data.count == 0
    ensures First<nat>([], MAX_ANGLES) == []
  {
  }

  lemma CollectMore(items: seq<nat>, count: nat, angles: seq<nat>, value: seq<byte>)
    requires count <= |items| == MAX_ANGLES && items[..count] == First(angles, MAX_ANGLES)
    ensures var d := Collected(items, count, value);
            d.items[..d.count] == First(angles + U.WordsOf(value, |value|), MAX_ANGLES)
  {
    hide U.WordsOf, First, Collected;
    var front, all := items[..count], U.WordsOf(value, |value|);
    assert |front| == count;
    FirstAppend(angles, all, MAX_ANGLES);
    WordsOfFirst(value, MAX_ANGLES - count, |value|);
    CollectedFront(items, count, value);
  }

  /** A number field keeps the last value that is long enough. */
  function LastNumber(ts: seq<Tlv>, id: nat, width: nat): Option<nat> {
    if ts == [] then None
    else
      var t := ts[|ts| - 1];
      if t.id == id && |t.value| >= width then Some(U.Big(t.value[..width])) else LastNumber(ts[..|ts| - 1], id, width)
  }

  lemma {:induction false} NumberIsLast(ts: seq<Tlv>, id: nat)
    requires id < FIELDS && KindOf(id).Plain? && KindOf(id).kind.Scalar?
    ensures var f := Fold(Empty(), ts)[id];
            var n := LastNumber(ts, id, KindOf(id).kind.width);
            && (f.present <==> n.Some?)
            && (n.Some? ==> f.data == U.Number(n.value))
    decreases |ts|
  {
    hide Empty, U.Big;
    if ts == [] {
      EmptyIsAbsent(id);
    } else {
      NumberIsLast(ts[..|ts| - 1], id);
    }
  }

  lemma EmptyIsAbsent(id: nat)
    requires id < FIELDS
    ensures !Empty()[id].present
  {
  }

  lemma {:induction false} LastWordIsNumber(ts: seq<Tlv>, id: nat)
    ensures LastWord(ts, id) == LastNumber(ts, id, 2)
  {
    if ts != [] {
      var t := ts[|ts| - 1];
      LastWordIsNumber(ts[..|ts| - 1], id);
      if |t.value| >= 2 {
        BigWord(t.value[..2]);
      }
    }
  }

  lemma BigWord(b: seq<byte>)
    requires |b| == 2
    ensures U.Big(b) == FromBe16(b[0], b[1])
  {
    assert b[..1] == [b[0]] && [b[0]][..0] == [];
    assert U.Big(b[..1]) == b[0];
  }

  lemma {:induction false} TypeIsNumber(m: Maneuver)
    ensures HasType(m) <==> LastNumber(m.tlvs, TYPE, 1).Some?
    decreases |m.tlvs|
  {
    if m.tlvs != [] {
      var n := |m.tlvs| - 1;
      TypeIsNumber(m.(tlvs := m.tlvs[..n]));
      if HasType(m) {
        var i :| 0 <= i <= n && m.tlvs[i].id == 3 && m.tlvs[i].value != [];
        assert i < n ==> m.tlvs[..n][i] == m.tlvs[i];
      }
      if HasType(m.(tlvs := m.tlvs[..n])) {
        var i :| 0 <= i < n && m.tlvs[..n][i].id == 3 && m.tlvs[..n][i].value != [];
        assert m.tlvs[i].id == 3 && m.tlvs[i].value != [];
      }
    }
  }

  /** What the store reads off a maneuver is what the parser put into its struct. */
  lemma StoreReadsParsed(message: seq<byte>)
    ensures var p, m := Parse(message), RgdSlots.ParseManeuver(message);
            && (RgdSlots.IndexOf(m) == if p[INDEX].present then Some(p[INDEX].data.n) else None)
            && (LinkOf(m) == if p[LINK].present then Some(p[LINK].data.n) else None)
            && (HasType(m) <==> p[TYPE].present)
  {
    hide Fold, LastNumber, LastWord, HasType, Tlvs;
    var m := RgdSlots.ParseManeuver(message);
    NumberIsLast(m.tlvs, INDEX);
    NumberIsLast(m.tlvs, LINK);
    NumberIsLast(m.tlvs, TYPE);
    LastWordIsNumber(m.tlvs, INDEX);
    LastWordIsNumber(m.tlvs, LINK);
    TypeIsNumber(m);
  }

  /** A maneuver with an index always has a field worth publishing, so the test for one never turns it away. */
  lemma IndexedIsPublishable(message: seq<byte>)
    ensures Parse(message)[INDEX].present ==> Parse(message)[EXIT_ANGLE].present
  {
    hide Fold;
  }
}
