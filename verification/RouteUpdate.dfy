/**
Route updates (message 0x5201): how rgd_tlv.c parses one into a struct of fixed buffers and how rgd_hook.c
merges it into the cached one. A struct is a row of fields, one for each TLV id.
*/
module RouteUpdate {
  import opened Bytes
  import opened Tlv

  const FIELDS: nat := 21
  const HEADER: nat := 6
  const SCRATCH: nat := 256

  datatype Kind = Scalar(width: nat) | Text(size: nat, newlines: bool) | List(max: nat)

  function KindOf(id: nat): (k: Kind)
    requires id < FIELDS
    ensures k.Text? ==> 1 <= k.size <= SCRATCH
  {
    match id
    case 0x00 => List(8)
    case 0x03 => Text(256, true)
    case 0x04 => Text(256, true)
    case 0x05 => Scalar(8)
    case 0x06 => Scalar(8)
    case 0x07 => Scalar(4)
    case 0x08 => Text(64, false)
    case 0x0A => Scalar(4)
    case 0x0B => Text(64, false)
    case 0x0D => List(16)
    case 0x0E => Scalar(2)
    case 0x10 => Scalar(2)
    case 0x11 => Scalar(2)
    case 0x13 => Text(64, true)
    case _ => Scalar(1)
  }

  datatype Data = Number(n: nat) | Chars(buf: seq<byte>) | Words(count: nat, items: seq<nat>)

  datatype Field = Field(present: bool, data: Data)

  predicate Fits(kind: Kind, f: Field) {
    match kind
    case Scalar(_) => f.data.Number?
    case Text(size, _) => f.data.Chars? && |f.data.buf| == size && 0 in f.data.buf
    case List(max) => f.data.Words? && f.data.count <= |f.data.items| == max
  }

  predicate Valid(u: seq<Field>) {
    |u| == FIELDS && forall id :: 0 <= id < FIELDS ==> Fits(KindOf(id), u[id])
  }

  function ZeroField(kind: Kind): (f: Field)
    requires kind.Text? ==> kind.size >= 1
    ensures Fits(kind, f) && !f.present
  {
    match kind
    case Scalar(_) => Field(false, Number(0))
    case Text(size, _) =>
      var buf: seq<byte> := seq(size, i => 0);
      assert buf[0] == 0;
      Field(false, Chars(buf))
    case List(max) => Field(false, Words(0, seq(max, i => 0)))
  }

  /** memset(out, 0, ..) */
  function Zero(): (u: seq<Field>)
    ensures Valid(u)
  {
    seq(FIELDS, id requires 0 <= id < FIELDS => ZeroField(KindOf(id)))
  }

  // ---- Values ----

  /** The characters in front of the first NUL. */
  function CString(buf: seq<byte>): (s: seq<byte>)
    ensures 0 !in s && |s| <= |buf| && s == buf[..|s|]
    ensures 0 in buf ==> |s| < |buf| && buf[|s|] == 0
  {
    if buf == [] || buf[0] == 0 then [] else [buf[0]] + CString(buf[1..])
  }

  lemma {:induction false} StringEnds(b: seq<byte>)
    ensures |CString(b)| < |b| ==> b[|CString(b)|] == 0
  {
    if b != [] && b[0] != 0 {
      StringEnds(b[1..]);
    }
  }

  function Big(b: seq<byte>): nat {
    if b == [] then 0
    else
      var low: int := b[|b| - 1];
      Big(b[..|b| - 1]) * 256 + low
  }

  /** At most max 16-bit words from the front of a value; an odd byte at its end is ignored. */
  function WordsOf(value: seq<byte>, max: nat): (ws: seq<nat>)
    ensures |ws| <= max
  {
    if max == 0 || |value| < 2 then [] else [FromBe16(value[0], value[1])] + WordsOf(value[2..], max - 1)
  }

  /** What replace_newlines collects in its scratch buffer, which holds used characters already. */
  function Joined(s: seq<byte>, used: nat): (r: seq<byte>)
    requires 0 !in s
    ensures 0 !in r && 10 !in r && 13 !in r
    ensures used < SCRATCH - 1 ==> used + |r| < SCRATCH - 1
    decreases |s|
  {
    if s == [] || used >= SCRATCH - 4 then []
    else if s[0] == 13 && |s| > 1 && s[1] == 10 then [32, 47, 32] + Joined(s[2..], used + 3)
    else if s[0] == 10 || s[0] == 13 then [32, 47, 32] + Joined(s[1..], used + 3)
    else [s[0]] + Joined(s[1..], used + 1)
  }

  /** A buffer after a string was copied to its front, with its NUL. */
  function Copied(buf: seq<byte>, s: seq<byte>): (r: seq<byte>)
    requires |buf| >= 1
    ensures |r| == |buf| && 0 in r
  {
    var n := if |s| < |buf| - 1 then |s| else |buf| - 1;
    assert (s[..n] + [0] + buf[n + 1..])[n] == 0;
    s[..n] + [0] + buf[n + 1..]
  }

  function NewlinesReplaced(buf: seq<byte>): (r: seq<byte>)
    requires |buf| >= 1
    ensures |r| == |buf| && 0 in r
  {
    Copied(buf, Joined(CString(buf), 0))
  }

  // ---- Parsing ----

  /** One case of the switch in rgd_parse_update: a value too short for its field leaves it alone. */
  function Store(kind: Kind, f: Field, value: seq<byte>): (r: Field)
    requires Fits(kind, f)
    ensures Fits(kind, r)
  {
    match kind
    case Scalar(width) => if |value| < width then f else Field(true, Number(Big(value[..width])))
    case Text(size, newlines) =>
      var buf := Copied(f.data.buf, value);
      Field(true, Chars(if newlines then NewlinesReplaced(buf) else buf))
    case List(max) =>
      var ws := WordsOf(value, max);
      Field(true, Words(|ws|, ws + f.data.items[|ws|..]))
  }

  function Step(u: seq<Field>, t: Tlv): (r: seq<Field>)
    requires Valid(u)
    ensures Valid(r)
  {
    if t.id >= FIELDS then u else u[t.id := Store(KindOf(t.id), u[t.id], t.value)]
  }

  function Fold(u: seq<Field>, ts: seq<Tlv>): (r: seq<Field>)
    requires Valid(u)
    ensures Valid(r)
    decreases |ts|
  {
    if ts == [] then u else Fold(Step(u, ts[0]), ts[1..])
  }

  /** The TLVs of a message, as far as they can be read. */
  function Parts(message: seq<byte>): (ts: seq<Tlv>)
    ensures AllFit(ts)
  {
    if |message| < HEADER then [] else Tlvs(message, HEADER)
  }

  function Parse(message: seq<byte>): (u: seq<Field>)
    ensures Valid(u)
  {
    Fold(Zero(), Parts(message))
  }

  /** rgd_update_cache_merge: the fields that are present replace those in the cache, buffers and all. */
  function Merge(c: seq<Field>, u: seq<Field>): (r: seq<Field>)
    requires Valid(c) && Valid(u)
    ensures Valid(r)
  {
    seq(FIELDS, id requires 0 <= id < FIELDS => if u[id].present then u[id] else c[id])
  }

  function MergeAll(c: seq<Field>, messages: seq<seq<byte>>): (r: seq<Field>)
    requires Valid(c)
    ensures Valid(r)
    decreases |messages|
  {
    if messages == [] then c else MergeAll(Merge(c, Parse(messages[0])), messages[1..])
  }

  // ---- The code ----

  /** One turn of the loop in replace_newlines. */
  lemma JoinedStep(buf: seq<byte>, i: nat, used: nat)
    requires 0 in buf && i < |CString(buf)| && used < SCRATCH - 4
    ensures i + 1 < |buf| && CString(buf)[i] == buf[i]
    ensures var all := CString(buf);
            if buf[i] == 13 && buf[i + 1] == 10 then
              i + 2 <= |all| && Joined(all[i..], used) == [32, 47, 32] + Joined(all[i + 2..], used + 3)
            else if buf[i] == 10 || buf[i] == 13 then
              Joined(all[i..], used) == [32, 47, 32] + Joined(all[i + 1..], used + 3)
            else Joined(all[i..], used) == [buf[i]] + Joined(all[i + 1..], used + 1)
  {
    hide CString;
    var all := CString(buf);
    var rest := all[i..];
    assert rest[0] == all[i] == buf[i];
    assert rest[1..] == all[i + 1..];
    if |rest| > 1 {
      assert rest[1] == buf[i + 1];
      assert rest[2..] == all[i + 2..];
    }
  }

  /** replace_newlines, in place. */
  method ReplaceNewlines(s: array<byte>)
    requires 1 <= s.Length <= SCRATCH && 0 in s[..]
    modifies s
    ensures s[..] == NewlinesReplaced(old(s[..]))
  {
    hide Joined, CString, Copied;
    var tmp := new byte[SCRATCH];
    var si, i := 0, 0;
    ghost var all := CString(s[..]);
    assert all[0..] == all;
    while s[i] != 0 && si < SCRATCH - 4
      invariant i <= |all| && si < SCRATCH - 1 && s[..] == old(s[..])
      invariant Joined(all, 0) == tmp[..si] + Joined(all[i..], si)
      decreases |all| - i
    {
      ghost var done := tmp[..si];
      JoinedStep(s[..], i, si);
      if s[i] == 13 && s[i + 1] == 10 {
        Separate(tmp, si);
        assert Joined(all, 0) == done + ([32, 47, 32] + Joined(all[i + 2..], si + 3));
        si, i := si + 3, i + 2;
      } else if s[i] == 10 || s[i] == 13 {
        Separate(tmp, si);
        assert Joined(all, 0) == done + ([32, 47, 32] + Joined(all[i + 1..], si + 3));
        si, i := si + 3, i + 1;
      } else {
        tmp[si] := s[i];
        assert tmp[..si + 1] == done + [s[i]];
        assert Joined(all, 0) == done + ([s[i]] + Joined(all[i + 1..], si + 1));
        si, i := si + 1, i + 1;
      }
    }
    assert i < |all| ==> all[i] == s[i];
    JoinedEnds(all, i, si);
    assert tmp[..si] + [] == tmp[..si];
    CopyTerminated(s, tmp[..si]);
  }

  lemma JoinedEnds(all: seq<byte>, i: nat, used: nat)
    requires 0 !in all && i <= |all| && (i == |all| || used >= SCRATCH - 4)
    ensures Joined(all[i..], used) == []
  {
  }

  method Separate(tmp: array<byte>, si: nat)
    requires si + 3 <= tmp.Length
    modifies tmp
    ensures tmp[..si + 3] == old(tmp[..si]) + [32, 47, 32]
  {
    tmp[si], tmp[si + 1], tmp[si + 2] := 32, 47, 32;
  }

  /** Copies as much of a string as fits, and its NUL. */
  method CopyTerminated(s: array<byte>, from: seq<byte>)
    requires s.Length >= 1
    modifies s
    ensures s[..] == Copied(old(s[..]), from)
  {
    var n := if |from| < s.Length - 1 then |from| else s.Length - 1;
    for i := 0 to n
      invariant s[..i] == from[..i] && s[i..] == old(s[i..])
    {
      s[i] := from[i];
    }
    s[n] := 0;
    assert s[..] == s[..n] + [s[n]] + s[n + 1..];
  }

  method StoreText(buf: seq<byte>, value: seq<byte>, newlines: bool) returns (r: seq<byte>)
    requires 1 <= |buf| <= SCRATCH
    ensures r == if newlines then NewlinesReplaced(Copied(buf, value)) else Copied(buf, value)
  {
    var s := new byte[|buf|](i requires 0 <= i < |buf| => buf[i]);
    assert s[..] == buf;
    CopyTerminated(s, value);
    if newlines {
      ReplaceNewlines(s);
    }
    r := s[..];
  }

  method StoreWords(items: seq<nat>, value: seq<byte>) returns (count: nat, r: seq<nat>)
    ensures var ws := WordsOf(value, |items|); count == |ws| && r == ws + items[|ws|..]
  {
    var i := 0;
    count, r := 0, items;
    while i + 1 < |value| && count < |items|
      invariant i == 2 * count && i <= |value| && count <= |items| == |r| && r[count..] == items[count..]
      invariant WordsOf(value, |items|) == r[..count] + WordsOf(value[i..], |items| - count)
      decreases |items| - count
    {
      var w := Word(value, i);
      assert value[i..][2..] == value[i + 2..];
      r := r[count := w];
      assert r[..count + 1] == r[..count] + [w];
      count, i := count + 1, i + 2;
    }
    assert r == r[..count] + r[count..];
  }

  /** rgd_parse_update */
  method ParseUpdate(message: seq<byte>) returns (u: seq<Field>)
    ensures u == Parse(message)
  {
    hide Store, Zero, Tlvs, Step;
    u := Zero();
    if |message| < HEADER {
      return;
    }
    var off := HEADER;
    while off + 4 <= |message|
      invariant off <= |message| && Valid(u) && Parse(message) == Fold(u, Tlvs(message, off))
      decreases |message| - off
    {
      var length, id := Word(message, off), Word(message, off + 2);
      TlvsUnfold(message, off);
      if length < 4 || off + length > |message| {
        break;
      }
      var value := message[off + 4..off + length];
      assert Tlvs(message, off) == [Tlv(id, value)] + Tlvs(message, off + length);
      FoldUnfold(u, Tlv(id, value), Tlvs(message, off + length));
      if id < FIELDS {
        var f := StoreField(KindOf(id), u[id], value);
        u := u[id := f];
      }
      off := off + length;
    }
    TlvsUnfold(message, off);
  }

  lemma FoldUnfold(u: seq<Field>, t: Tlv, ts: seq<Tlv>)
    requires Valid(u)
    ensures Fold(u, [t] + ts) == Fold(Step(u, t), ts)
    ensures Step(u, t) == if t.id >= FIELDS then u else u[t.id := Store(KindOf(t.id), u[t.id], t.value)]
  {
    hide Store, Valid;
    assert ([t] + ts)[1..] == ts;
  }

  method StoreField(kind: Kind, f: Field, value: seq<byte>) returns (r: Field)
    requires Fits(kind, f) && (kind.Text? ==> 1 <= kind.size <= SCRATCH)
    ensures r == Store(kind, f, value)
  {
    r := f;
    match kind
    case Scalar(width) =>
      if |value| >= width {
        r := Field(true, Number(Big(value[..width])));
      }
    case Text(size, newlines) =>
      var buf := StoreText(f.data.buf, value, newlines);
      r := Field(true, Chars(buf));
    case List(max) =>
      var count, items := StoreWords(f.data.items, value);
      r := Field(true, Words(count, items));
  }

  /** The merged update of rgd_hook.c. */
  class UpdateCache {
    var fields: seq<Field>

    constructor ()
      ensures fields == Zero()
    {
      fields := Zero();
    }

    method Reset()
      modifies this
      ensures fields == Zero()
    {
      fields := Zero();
    }

    method MergeUpdate(u: seq<Field>)
      requires Valid(fields) && Valid(u)
      modifies this
      ensures fields == Merge(old(fields), u)
    {
      ghost var was, merged := fields, Merge(fields, u);
      for id := 0 to FIELDS
        invariant |fields| == FIELDS
        invariant forall k :: 0 <= k < FIELDS ==> fields[k] == if k < id then merged[k] else was[k]
      {
        hide Valid;
        if u[id].present {
          fields := fields[id := u[id]];
        }
      }
      assert fields == merged;
    }
  }
}
