/** What merging parsed route updates amounts to: parsing all their TLVs in one message. */
module RouteUpdateTheorems {
  import opened Bytes
  import opened RouteUpdate
  import opened Tlv
  import opened Wrappers

  /** What a field says, without the stale characters and words behind its end. */
  datatype Content = NumberIs(n: nat) | StringIs(s: seq<byte>) | ListIs(ws: seq<nat>)

  function ContentOf(d: Data): Content
    requires d.Words? ==> d.count <= |d.items|
  {
    match d
    case Number(n) => NumberIs(n)
    case Chars(buf) => StringIs(CString(buf))
    case Words(count, items) => ListIs(items[..count])
  }

  function View(f: Field): (bool, Content)
    requires f.data.Words? ==> f.data.count <= |f.data.items|
  {
    (f.present, ContentOf(f.data))
  }

  predicate Same(u: seq<Field>, v: seq<Field>)
    requires Valid(u) && Valid(v)
  {
    forall id :: 0 <= id < FIELDS ==> View(u[id]) == View(v[id])
  }

  // ---- Buffers ----

  lemma {:induction false} CStringIs(buf: seq<byte>, s: seq<byte>)
    requires |s| < |buf| && buf[..|s|] == s && buf[|s|] == 0 && 0 !in s
    ensures CString(buf) == s
    decreases |s|
  {
    if s != [] {
      assert buf[0] == s[0];
      assert s[0] in s;
      assert buf[1..][..|s| - 1] == s[1..];
      CStringIs(buf[1..], s[1..]);
    }
  }

  /** The first n characters of a value, as a string. */
  function Truncated(value: seq<byte>, n: nat): (s: seq<byte>)
    ensures 0 !in s && |s| <= n
  {
    CString(if |value| < n then value else value[..n])
  }

  /** Copying a string into a buffer leaves that string in it, whatever was there. */
  lemma CopiedString(buf: seq<byte>, value: seq<byte>)
    requires |buf| >= 1
    ensures CString(Copied(buf, value)) == Truncated(value, |buf| - 1)
  {
    hide CString;
    var cut := if |value| < |buf| - 1 then value else value[..|buf| - 1];
    var s, r := CString(cut), Copied(buf, value);
    assert r[..|cut|] == cut && r[|cut|] == 0;
    StringPrefix(r, cut);
  }

  lemma StringPrefix(r: seq<byte>, cut: seq<byte>)
    requires |cut| < |r| && r[..|cut|] == cut && r[|cut|] == 0
    ensures CString(r) == CString(cut)
  {
    hide CString;
    var s := CString(cut);
    StringEnds(cut);
    assert r[..|s|] == cut[..|s|] == s;
    if |s| < |cut| {
      assert r[|s|] == cut[|s|];
    }
    CStringIs(r, s);
  }

  lemma TruncatedClean(s: seq<byte>, n: nat)
    requires 0 !in s
    ensures Truncated(s, n) == if |s| < n then s else s[..n]
  {
    hide CString;
    var cut := if |s| < n then s else s[..n];
    StringEnds(cut);
    assert 0 !in cut;
  }

  /** What a text field of this size says after a value was stored in it. */
  function TextOf(size: nat, newlines: bool, value: seq<byte>): (s: seq<byte>)
    requires size >= 1
    ensures 0 !in s && |s| < size
  {
    var s := Truncated(value, size - 1);
    if newlines then Truncated(Joined(s, 0), size - 1) else s
  }

  /** A text whose newlines are replaced keeps none, so it cannot break a line of the bus. */
  lemma TextHasNoNewline(size: nat, value: seq<byte>)
    requires size >= 1
    ensures 10 !in TextOf(size, true, value) && 13 !in TextOf(size, true, value)
  {
    hide CString, Joined;
    TruncatedClean(Joined(Truncated(value, size - 1), 0), size - 1);
  }

  // ---- Fields ----

  /** What a value says in a field of this kind, if it is long enough for it. */
  function Meaning(kind: Kind, value: seq<byte>): Option<Content>
    requires kind.Text? ==> kind.size >= 1
  {
    match kind
    case Scalar(width) => if |value| < width then None else Some(NumberIs(Big(value[..width])))
    case Text(size, newlines) => Some(StringIs(TextOf(size, newlines, value)))
    case List(max) => Some(ListIs(WordsOf(value, max)))
  }

  /** A stored field says what its value means, whatever its buffer held before. */
  lemma StoreMeans(kind: Kind, f: Field, value: seq<byte>)
    requires Fits(kind, f) && (kind.Text? ==> kind.size >= 1)
    ensures match Meaning(kind, value)
            case None => Store(kind, f, value) == f
            case Some(c) => View(Store(kind, f, value)) == (true, c)
  {
    hide CString, Copied, Joined, WordsOf, Big;
    if kind.Text? {
      var buf := Copied(f.data.buf, value);
      CopiedString(f.data.buf, value);
      if kind.newlines {
        CopiedString(buf, Joined(CString(buf), 0));
      }
    }
  }

  /** The TLV changes the field. */
  predicate Touches(t: Tlv, id: nat)
    requires id < FIELDS
  {
    t.id == id && Meaning(KindOf(id), t.value).Some?
  }

  lemma StepMeans(u: seq<Field>, t: Tlv, id: nat)
    requires Valid(u) && id < FIELDS
    ensures !Touches(t, id) ==> Step(u, t)[id] == u[id]
    ensures Touches(t, id) ==> View(Step(u, t)[id]) == (true, Meaning(KindOf(id), t.value).value)
  {
    hide Store, Meaning, KindOf;
    if t.id == id {
      StoreMeans(KindOf(id), u[id], t.value);
    }
  }

  // ---- Parsing keeps the last ----

  /** What the TLVs say about a field: the last one that is long enough counts. */
  function Latest(ts: seq<Tlv>, id: nat): Option<Content>
    requires id < FIELDS
    decreases |ts|
  {
    if ts == [] then None
    else
      var t := ts[|ts| - 1];
      if Touches(t, id) then Meaning(KindOf(id), t.value) else Latest(ts[..|ts| - 1], id)
  }

  lemma {:induction false} FoldAppend(u: seq<Field>, a: seq<Tlv>, b: seq<Tlv>)
    requires Valid(u)
    ensures Fold(u, a + b) == Fold(Fold(u, a), b)
    decreases |a|
  {
    hide Step, Valid;
    if a == [] {
      assert a + b == b;
    } else {
      assert (a + b)[1..] == a[1..] + b;
      FoldAppend(Step(u, a[0]), a[1..], b);
    }
  }

  lemma {:induction false} FoldMeans(u: seq<Field>, ts: seq<Tlv>, id: nat)
    requires Valid(u) && id < FIELDS
    ensures match Latest(ts, id)
            case None => Fold(u, ts)[id] == u[id]
            case Some(c) => View(Fold(u, ts)[id]) == (true, c)
    decreases |ts|
  {
    hide Step, Valid, Meaning, KindOf, View;
    if ts != [] {
      var before, t := ts[..|ts| - 1], ts[|ts| - 1];
      FoldMeans(u, before, id);
      assert ts == before + [t];
      FoldAppend(u, before, [t]);
      FoldOne(Fold(u, before), t);
      StepMeans(Fold(u, before), t, id);
    }
  }

  lemma FoldOne(u: seq<Field>, t: Tlv)
    requires Valid(u)
    ensures Fold(u, [t]) == Step(u, t)
  {
    hide Step;
    assert [t][1..] == [];
  }

  lemma {:induction false} LatestAppend(a: seq<Tlv>, b: seq<Tlv>, id: nat)
    requires id < FIELDS
    ensures Latest(a + b, id) == if Latest(b, id).Some? then Latest(b, id) else Latest(a, id)
    decreases |b|
  {
    hide Meaning, KindOf;
    if b == [] {
      assert a + b == a;
    } else {
      assert (a + b)[..|a + b| - 1] == a + b[..|b| - 1];
      LatestAppend(a, b[..|b| - 1], id);
    }
  }

  // ---- Merging ----

  /** All TLVs of some messages. */
  function AllParts(messages: seq<seq<byte>>): (ts: seq<Tlv>)
    ensures AllFit(ts)
  {
    if messages == [] then [] else Parts(messages[0]) + AllParts(messages[1..])
  }

  /** The field says c, if anything was said about it; otherwise it is as it was. */
  predicate Says(f: Field, was: Field, c: Option<Content>)
    requires f.data.Words? ==> f.data.count <= |f.data.items|
    requires was.data.Words? ==> was.data.count <= |was.data.items|
  {
    match c
    case None => View(f) == View(was)
    case Some(x) => View(f) == (true, x)
  }

  lemma FieldFits(u: seq<Field>, id: nat)
    requires Valid(u) && id < FIELDS
    ensures Fits(KindOf(id), u[id]) && (u[id].data.Words? ==> u[id].data.count <= |u[id].data.items|)
  {
  }

  lemma ZeroMeans(id: nat)
    requires id < FIELDS
    ensures !Zero()[id].present
  {
  }

  lemma MergeMeans(c: seq<Field>, message: seq<byte>, id: nat)
    requires Valid(c) && id < FIELDS
    ensures Says(Merge(c, Parse(message))[id], c[id], Latest(Parts(message), id))
  {
    hide Fold, Zero, KindOf, Latest, Parts, Valid;
    FieldFits(c, id);
    FieldFits(Parse(message), id);
    FoldMeans(Zero(), Parts(message), id);
    ZeroMeans(id);
  }

  lemma {:induction false} MergeAllMeans(c: seq<Field>, messages: seq<seq<byte>>, id: nat)
    requires Valid(c) && id < FIELDS
    ensures Says(MergeAll(c, messages)[id], c[id], Latest(AllParts(messages), id))
    decreases |messages|
  {
    hide Parse, KindOf, Latest, Parts, Valid, Merge;
    FieldFits(c, id);
    FieldFits(MergeAll(c, messages), id);
    if messages != [] {
      var d := Merge(c, Parse(messages[0]));
      FieldFits(d, id);
      MergeMeans(c, messages[0], id);
      MergeAllMeans(d, messages[1..], id);
      LatestAppend(Parts(messages[0]), AllParts(messages[1..]), id);
    } else {
      assert Latest([], id) == None by {
        LatestOfNone(id);
      }
    }
  }

  lemma LatestOfNone(id: nat)
    requires id < FIELDS
    ensures Latest([], id) == None
  {
  }

  /** Every field of the cache says what the last TLV about it said, in whichever message that was. */
  lemma CacheIsLatest(messages: seq<seq<byte>>, id: nat)
    requires id < FIELDS
    ensures Says(MergeAll(Zero(), messages)[id], Zero()[id], Latest(AllParts(messages), id))
  {
    MergeAllMeans(Zero(), messages, id);
  }

  /**
  Merging the parsed messages since a reset says the same as parsing one message with all their TLVs, each
  message counting as far as it can be read.
  */
  lemma MergeIsParse(header: seq<byte>, messages: seq<seq<byte>>)
    requires |header| == HEADER
    ensures Same(MergeAll(Zero(), messages), Parse(header + EncodeAll(AllParts(messages))))
  {
    hide MergeAll, Fold, Latest, Zero, KindOf, Tlvs, EncodeAll, View;
    var ts := AllParts(messages);
    RoundTrip(header, ts);
    assert Parse(header + EncodeAll(ts)) == Fold(Zero(), ts);
    forall id | 0 <= id < FIELDS
      ensures View(MergeAll(Zero(), messages)[id]) == View(Parse(header + EncodeAll(ts))[id])
    {
      MergeAllMeans(Zero(), messages, id);
      FoldMeans(Zero(), ts, id);
    }
  }

  /** The TLVs of a message run exactly to its end. */
  predicate WellFormed(message: seq<byte>) {
    |message| >= HEADER && End(message, HEADER) == |message|
  }

  predicate AllWellFormed(messages: seq<seq<byte>>) {
    forall i :: 0 <= i < |messages| ==> WellFormed(messages[i])
  }

  /** The payloads of some messages in one. */
  function Payloads(messages: seq<seq<byte>>): seq<byte>
    requires AllWellFormed(messages)
  {
    if messages == [] then []
    else
      assert WellFormed(messages[0]);
      messages[0][HEADER..] + Payloads(messages[1..])
  }

  lemma {:induction false} PayloadsEncode(messages: seq<seq<byte>>)
    requires AllWellFormed(messages)
    ensures Payloads(messages) == EncodeAll(AllParts(messages))
    decreases |messages|
  {
    hide Tlvs, End, EncodeAll;
    if messages != [] {
      var m := messages[0];
      PayloadsEncode(messages[1..]);
      assert WellFormed(m);
      EncodeTlvs(m, HEADER);
      assert m[HEADER..] == m[HEADER..|m|];
      EncodeAllAppend(Parts(m), AllParts(messages[1..]));
    } else {
      assert EncodeAll([]) == [] by {
        EncodeNothing();
      }
    }
  }

  lemma EncodeNothing()
    ensures EncodeAll([]) == []
  {
  }

  /** For well-formed messages that one message is simply their concatenation. */
  lemma MergeIsParseOfConcatenation(header: seq<byte>, messages: seq<seq<byte>>)
    requires |header| == HEADER && AllWellFormed(messages)
    ensures Same(MergeAll(Zero(), messages), Parse(header + Payloads(messages)))
  {
    hide MergeAll, Parse, Same;
    PayloadsEncode(messages);
    MergeIsParse(header, messages);
  }
}
