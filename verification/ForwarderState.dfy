/** The forwarder as it runs in altscreen_output.c: two fixed buffers and a handful of globals. */
module ForwarderState {
  import opened AnnexB
  import opened Av11
  import opened Bytes
  import opened Forwarder
  import opened Wrappers

  class Globals {
    var up: bool
    var retryMs: nat
    var needIdr: bool
    var lastRequestMs: nat
    var sent: nat
    var dropped: nat
    const buf: array<byte>
    const parameterSets: array<byte>
    var parameterSetsLength: nat
    ghost var lines: seq<Line>

    ghost predicate Valid()
      reads this
    {
      && buf.Length == BUFFER_SIZE && parameterSets.Length == MAX_PARAMETER_SETS && buf != parameterSets
      && parameterSetsLength <= MAX_PARAMETER_SETS
      && (up ==> lines != [])
    }

    ghost function Model(): (s: State)
      requires Valid()
      reads this, parameterSets
      ensures s.Valid()
    {
      State(up, retryMs, needIdr, lastRequestMs, parameterSets[..parameterSetsLength], sent, dropped, lines)
    }

    constructor ()
      ensures Valid() && fresh(buf) && fresh(parameterSets) && Model() == Initial()
    {
      up, retryMs, needIdr, lastRequestMs, sent, dropped := false, 0, false, 0, 0, 0;
      buf, parameterSets := new byte[BUFFER_SIZE], new byte[MAX_PARAMETER_SETS];
      parameterSetsLength, lines := 0, [];
    }

    /** The copy at the end of fwd_scan_parameter_sets. */
    method CacheParameterSets(data: seq<byte>)
      requires Valid() && |data| <= MAX_PARAMETER_SETS
      modifies this`parameterSetsLength, parameterSets
      ensures Valid() && Model() == old(Model()).(cache := data)
    {
      for i := 0 to |data|
        invariant parameterSets[..i] == data[..i]
      {
        parameterSets[i] := data[i];
      }
      parameterSetsLength := |data|;
      assert parameterSets[..|data|] == data;
    }

    method Scan(data: seq<byte>) returns (hasIdr: bool, hasParameterSets: bool)
      requires Valid()
      modifies this`parameterSetsLength, parameterSets
      ensures Valid() && Model() == Cache(old(Model()), data)
      ensures (hasIdr <==> SeesIdr(data)) && (hasParameterSets <==> SeesParameterSets(data))
    {
      hide CachedSlice, Kinds;
      var cached;
      hasIdr, hasParameterSets, cached := ScanParameterSets(data);
      if cached.Some? {
        CachedSliceFits(data);
        CacheParameterSets(cached.value);
      }
    }

    method ConnectLocked(now: nat, reachable: bool) returns (ok: bool)
      requires Valid()
      modifies this`up, this`retryMs, this`needIdr, this`lastRequestMs, this`lines
      ensures Valid() && Model() == Connect(old(Model()), now, reachable) && ok == up
    {
      if up {
        return true;
      }
      if now != 0 && now < retryMs {
        return false;
      }
      if now != 0 {
        retryMs := now + RETRY_MS;
      }
      if !reachable {
        return false;
      }
      lines := lines + [Line(parameterSets[..parameterSetsLength] != [], [], [])];
      up, needIdr, lastRequestMs := true, true, 0;
      ok := true;
    }

    /** Header and payload are laid out in the one buffer the frame is sent from. */
    method FillBuffer(data: seq<byte>, timestamp: nat, flag: nat)
      requires Valid() && Fits(data)
      modifies buf
      ensures buf[..HEADER_SIZE + |data|] == Encode(Frame(timestamp, flag, data))
      ensures Valid() && Model() == old(Model())
    {
      var header := Header(|data|, timestamp, flag);
      for i := 0 to HEADER_SIZE
        invariant buf[..i] == header[..i]
      {
        buf[i] := header[i];
      }
      for i := 0 to |data|
        invariant buf[..HEADER_SIZE] == header && buf[HEADER_SIZE..HEADER_SIZE + i] == data[..i]
      {
        buf[HEADER_SIZE + i] := data[i];
      }
      assert buf[..HEADER_SIZE + |data|] == buf[..HEADER_SIZE] + buf[HEADER_SIZE..HEADER_SIZE + |data|];
    }

    /** The send loop: it puts a prefix of the buffer on the line, all of it unless the connection fails. */
    method SendBuffer(total: nat, script: seq<SendOutcome>) returns (offset: nat)
      requires Valid() && up && total <= BUFFER_SIZE
      modifies this`lines
      ensures Valid() && offset == SendAll(total, 0, script).accepted
      ensures Model() == old(Model()).(lines := Extended(old(lines), buf[..offset]))
    {
      hide Encode, Header;
      offset := 0;
      var stalls, left := 0, script;
      assert Extended(lines, buf[..0]) == lines by {
        assert lines[|lines| - 1].bytes + buf[..0] == lines[|lines| - 1].bytes;
      }
      while offset < total && left != []
        invariant offset <= total && Valid()
        invariant SendAll(total, 0, script).accepted == offset + SendAll(total - offset, stalls, left).accepted
        invariant lines == Extended(old(lines), buf[..offset])
        decreases |left|
      {
        var outcome := left[0];
        left := left[1..];
        match outcome
        case Accepted(n) =>
          if n == 0 {
            return;
          }
          var k := if n < total - offset then n else total - offset;
          assert buf[..offset + k] == buf[..offset] + buf[offset..offset + k];
          ExtendTwice(old(lines), buf[..offset], buf[offset..offset + k]);
          lines := Extended(lines, buf[offset..offset + k]);
          offset := offset + k;
        case Interrupted =>
        case Stalled =>
          stalls := stalls + 1;
          if stalls > STALL_MAX {
            return;
          }
        case Broken =>
          return;
      }
    }

    method WriteLocked(data: seq<byte>, timestamp: nat, flag: nat, script: seq<SendOutcome>) returns (ok: bool)
      requires Valid()
      modifies this`up, this`sent, this`dropped, this`lines, buf
      ensures Valid() && Model() == Write(old(Model()), Frame(timestamp, flag, data), script)
      ensures ok <==> sent == old(sent) + 1
    {
      hide SendAll, Encode, Header;
      if !up || data == [] {
        return false;
      }
      if HEADER_SIZE + |data| > BUFFER_SIZE {
        dropped := dropped + 1;
        return false;
      }
      FillBuffer(data, timestamp, flag);
      ghost var f := Frame(timestamp, flag, data);
      var offset := SendBuffer(HEADER_SIZE + |data|, script);
      assert buf[..offset] == Encode(f)[..offset];
      if offset < HEADER_SIZE + |data| {
        up := false;
        dropped := dropped + 1;
        return false;
      }
      ghost var line := Model().Current();
      lines := lines[|lines| - 1 := line.(whole := line.whole + [f])];
      sent := sent + 1;
      ok := true;
    }

    method SendAccessUnit(u: Unit) returns (requestKeyframe: bool)
      requires Valid()
      modifies this, buf, parameterSets
      ensures Valid() && Model() == SendUnit(old(Model()), u)
      ensures requestKeyframe <==> Requests(old(Model()), u)
    {
      hide Cache, Connect, Write, SeesIdr, SeesParameterSets, Gate, Passes, RequestDue;
      var data := u.frame.payload;
      requestKeyframe := false;
      if data == [] {
        return;
      }
      var hasIdr, hasParameterSets := Scan(data);
      var freshConnection := !up;
      var ok := ConnectLocked(u.now, u.reachable);
      if !ok {
        dropped := dropped + 1;
        return;
      }
      if freshConnection && !hasParameterSets && parameterSetsLength != 0 {
        ok := WriteLocked(parameterSets[..parameterSetsLength], u.frame.timestamp, 0, u.replay);
        if !up {
          return;
        }
      }
      requestKeyframe := GateAndWrite(u, hasIdr, hasParameterSets);
    }

    /** The end of fwd_send_access_unit: the wait for an IDR picture, and the unit itself. */
    method GateAndWrite(u: Unit, hasIdr: bool, hasParameterSets: bool) returns (requestKeyframe: bool)
      requires Valid() && up && (hasIdr <==> SeesIdr(u.frame.payload))
      requires hasParameterSets <==> SeesParameterSets(u.frame.payload)
      modifies this`up, this`sent, this`dropped, this`lines, this`needIdr, this`lastRequestMs, buf
      ensures Valid()
      ensures Model() == var t := old(Model());
                         if Passes(t, u.frame.payload) then Write(Gate(t, u), u.frame, u.script)
                         else Gate(t, u).(dropped := t.dropped + 1)
      ensures requestKeyframe <==>
                old(Model()).needIdr && !SeesIdr(u.frame.payload) && RequestDue(old(Model()), u.later)
    {
      hide Write, SeesIdr, SeesParameterSets;
      requestKeyframe := false;
      if needIdr {
        if hasIdr {
          needIdr, lastRequestMs := false, 0;
        } else {
          var now := u.later;
          if lastRequestMs == 0 || now == 0 || (now - lastRequestMs) % TWO_64 >= REQUEST_MS {
            lastRequestMs := if now != 0 then now else 1;
            requestKeyframe := true;
          }
          if !hasParameterSets {
            dropped := dropped + 1;
            return;
          }
        }
      }
      var ok := WriteLocked(u.frame.payload, u.frame.timestamp, u.frame.flag, u.script);
    }

    method VideoClose()
      requires Valid()
      modifies this`up, this`needIdr, this`lastRequestMs
      ensures Valid() && Model() == Close(old(Model()))
    {
      up, needIdr, lastRequestMs := false, false, 0;
    }

    method ResetLocked()
      requires Valid()
      modifies this`up, this`retryMs, this`sent, this`dropped, this`needIdr, this`lastRequestMs
      modifies this`parameterSetsLength
      ensures Valid() && Model() == Reset(old(Model()))
    {
      up, retryMs, sent, dropped, needIdr, lastRequestMs := false, 0, 0, 0, false, 0;
      parameterSetsLength := 0;
    }
  }

  ghost function Extended(lines: seq<Line>, bytes: seq<byte>): seq<Line>
    requires lines != []
  {
    var line := lines[|lines| - 1];
    lines[|lines| - 1 := line.(bytes := line.bytes + bytes)]
  }

  lemma ExtendTwice(lines: seq<Line>, a: seq<byte>, b: seq<byte>)
    requires lines != []
    ensures Extended(Extended(lines, a), b) == Extended(lines, a + b)
  {
    var line := lines[|lines| - 1];
    assert line.bytes + a + b == line.bytes + (a + b);
  }

  lemma CachedSliceFits(data: seq<byte>)
    requires CachedSlice(data).Some?
    ensures |CachedSlice(data).value| <= MAX_PARAMETER_SETS
  {
  }
}
