/** The frames of the JBD battery management system, as the V2 driver (`BatteryOS-V2/JBDBMS.cpp`) and the V1 driver
    (`BatteryOS-V1/JBDBMS.py`) build and check them.

    A reply is a starter byte, a register address, a status, a length, that many data bytes, a checksum (high byte
    first) and an ending byte. */
module Jbd {
  import opened Options
  import opened Sums
  import opened Wire

  const STARTER: Byte := 0xDD
  const READ: Byte := 0xA5
  const WRITE: Byte := 0x5A
  const ENDING: Byte := 0x77

  /** What a payload needs to add up to a multiple of 2^16. */
  function Checksum(payload: seq<Byte>): (r: nat)
    ensures r < 0x1_0000 && (Sum(payload) + r) % 0x1_0000 == 0
  {
    -Sum(payload) % 0x1_0000
  }

  lemma {:induction false} SumAppend(s: seq<Byte>, t: seq<Byte>)
    ensures Sum(s + t) == Sum(s) + Sum(t)
  {
    if t == [] {
      assert s + t == s;
    } else {
      var n := |t| - 1;
      assert (s + t)[..|s| + n] == s + t[..n];
      SumAppend(s, t[..n]);
    }
  }

  lemma {:induction false} SumRange(s: seq<Byte>)
    ensures 0 <= Sum(s) <= 255 * |s|
  {
    if s != [] {
      SumRange(s[..|s| - 1]);
    }
  }

  lemma SumOfPayload(a: Byte, b: Byte, data: seq<Byte>)
    ensures Sum([a, b] + data) == a + b + Sum(data)
  {
    SumAppend([], [a]);
    SumAppend([a], [b]);
    assert [a, b] == [a] + [b] && [a][..0] == [] && [b][..0] == [];
    SumAppend([a, b], data);
  }

  /** The 16-bit sum that `compute_checksum` keeps never wraps on a payload with at most 255 data bytes; the largest is
      exactly 2^16 - 1. */
  lemma PayloadNeverWraps(a: Byte, b: Byte, data: seq<Byte>)
    requires |data| <= 255
    ensures 0 <= Sum([a, b] + data) <= 0xFFFF
    ensures Checksum([a, b] + data) == if Sum([a, b] + data) == 0 then 0 else 0x1_0000 - Sum([a, b] + data)
  {
    SumRange([a, b] + data);
    SmallComplement(Sum([a, b] + data));
    hide Sum;
  }

  lemma SmallComplement(sum: int)
    requires 0 <= sum <= 0xFFFF
    ensures -sum % 0x1_0000 == if sum == 0 then 0 else 0x1_0000 - sum
  {
    DivisionIs(-sum, 0x1_0000, if sum == 0 then 0 else -1, if sum == 0 then 0 else 0x1_0000 - sum);
  }

  /** Sixteen bits of a sum from sixteen bits of a part of it. */
  lemma WrappedSum(a: int, b: int)
    ensures (a % 0x1_0000 + b) % 0x1_0000 == (a + b) % 0x1_0000
  {
  }

  /** The complement plus one, in sixteen bits. */
  lemma WrappedComplement(sum: int)
    ensures (0xFFFF - sum % 0x1_0000 + 1) % 0x1_0000 == -sum % 0x1_0000
  {
  }

  // ----- commands -----

  function Command(indicator: Byte, payload: seq<Byte>): (s: seq<Byte>)
  {
    [STARTER, indicator] + payload + [Checksum(payload) / 256, Checksum(payload) % 256, ENDING]
  }

  /** A frame around a payload that adds up, with its checksum, to a multiple of 2^16. */
  predicate IsCommand(s: seq<Byte>, indicator: Byte, payload: seq<Byte>)
  {
    var n := |s|;
    && n == |payload| + 5 && s[0] == 0xDD && s[1] == indicator && s[2..n - 3] == payload && s[n - 1] == 0x77
    && (Sum(payload) + Word(s[n - 3], s[n - 2])) % 0x1_0000 == 0
  }

  /** The V2 write command; a length over 255 is truncated to a byte. */
  function WriteCommand(register: Byte, data: seq<Byte>): (s: seq<Byte>)
  {
    Command(WRITE, [register, |data| % 256] + data)
  }

  function ReadCommand(register: Byte): (s: seq<Byte>)
  {
    Command(READ, [register, 0])
  }

  /** Python's `~x`. */
  function Not(x: int): (r: int)
  {
    -x - 1
  }

  /** V1's `get_write_register_command`; a length over 255 raises. */
  function WriteCommandV1(register: Byte, data: seq<Byte>): (r: Option<seq<Byte>>)
  {
    if |data| > 255 then None
    else
      var checksum := (Not((register + |data| + Sum(data)) % 0x1_0000) + 1) % 0x1_0000;
      Some([STARTER] + [WRITE] + [register] + [|data|] + data + [checksum / 256, checksum % 256] + [ENDING])
  }

  /** Where V1 builds a write command, V2 builds the same one. */
  lemma SameWriteCommand(register: Byte, data: seq<Byte>)
    ensures WriteCommandV1(register, data) == if |data| <= 255 then Some(WriteCommand(register, data)) else None
  {
    if |data| <= 255 {
      SumOfPayload(register, |data|, data);
      var checksum := (Not((register + |data| + Sum(data)) % 0x1_0000) + 1) % 0x1_0000;
      var payload := [register, |data|] + data;
      assert checksum == Checksum(payload);
      assert [STARTER] + [WRITE] + [register] + [|data|] + data + [checksum / 256, checksum % 256] + [ENDING]
          == [STARTER, WRITE] + payload + [checksum / 256, checksum % 256, ENDING];
    }
  }

  // ----- replies -----

  datatype Reply = Reply(header: seq<Byte>, data: seq<Byte>, checksum: nat, ending: Byte)

  /** A 16-bit number from its bytes. */
  function Word(high: int, low: int): (r: int)
  {
    256 * high + low
  }

  /** The parts of a reply of at least seven bytes, as `query_info` takes them. */
  function Parts(resp: seq<Byte>): (r: Reply)
    requires |resp| >= 7
  {
    var n := |resp|;
    Reply(resp[..4], resp[4..n - 3], Word(resp[n - 3], resp[n - 2]), resp[n - 1])
  }

  /** What V2 accepts: right starter, ending and length, and status, length, data and checksum add up to a multiple of
      2^16. The register address is not looked at. */
  predicate Accepts(r: Reply)
  {
    && |r.header| == 4
    && r.header[0] == STARTER
    && r.ending == ENDING
    && |r.data| == r.header[3]
    && r.checksum < 0x1_0000
    && (r.header[2] + r.header[3] + Sum(r.data) + r.checksum) % 0x1_0000 == 0
  }

  predicate AcceptsBytes(resp: seq<Byte>)
  {
    |resp| >= 7 && Accepts(Parts(resp))
  }

  /** An accepted reply with other data of the same length is accepted exactly if the data have the same sum, not only the
      same sum modulo 2^16. */
  lemma OtherData(r: Reply, data: seq<Byte>)
    requires Accepts(r) && |data| == |r.data|
    ensures Accepts(r.(data := data)) <==> Sum(data) == Sum(r.data)
  {
    SumRange(data);
    SumRange(r.data);
    var base := r.header[2] + r.header[3] + r.checksum;
    if (base + Sum(data)) % 0x1_0000 == 0 && (base + Sum(r.data)) % 0x1_0000 == 0 {
      SameClass(base + Sum(data), base + Sum(r.data), r.checksum);
    }
  }

  /** Two multiples of 2^16 that exceed the same `c` by less than 2^16 are equal. */
  lemma SameClass(x: int, y: int, c: int)
    requires x % 0x1_0000 == 0 && y % 0x1_0000 == 0
    requires c <= x < c + 0x1_0000 && c <= y < c + 0x1_0000
    ensures x == y
  {
  }

  lemma OneDataByteChanged(r: Reply, k: nat, b: Byte)
    requires Accepts(r) && k < |r.data| && b != r.data[k]
    ensures !Accepts(r.(data := r.data[k := b]))
  {
    SumUpdate(r.data, k, b);
    OtherData(r, r.data[k := b]);
  }

  lemma OneHeaderByteChanged(r: Reply, k: nat, b: Byte)
    requires Accepts(r) && k < 4 && b != r.header[k]
    ensures Accepts(r.(header := r.header[k := b])) <==> k == 1
  {
    if k == 2 {
      ClassMoves(r.header[3] + Sum(r.data) + r.checksum, r.header[2], b);
    }
  }

  lemma ChecksumChanged(r: Reply, checksum: nat)
    requires Accepts(r) && checksum != r.checksum
    ensures !Accepts(r.(checksum := checksum))
  {
    if checksum < 0x1_0000 {
      ClassMoves(r.header[2] + r.header[3] + Sum(r.data), r.checksum, checksum);
    }
  }

  lemma ClassMoves(base: int, a: nat, b: nat)
    requires a < 0x1_0000 && b < 0x1_0000 && a != b && (base + a) % 0x1_0000 == 0
    ensures (base + b) % 0x1_0000 != 0
  {
  }

  /** Changing any one byte of an accepted reply makes V2 reject it, unless it is the register address. */
  lemma OneByteChanged(resp: seq<Byte>, i: nat, b: Byte)
    requires AcceptsBytes(resp) && i < |resp| && b != resp[i]
    ensures AcceptsBytes(resp[i := b]) <==> i == 1
  {
    var n, r, r' := |resp|, Parts(resp), Parts(resp[i := b]);
    if i < 4 {
      assert r' == r.(header := r.header[i := b]);
      OneHeaderByteChanged(r, i, b);
    } else if i < n - 3 {
      assert r' == r.(data := r.data[i - 4 := b]);
      OneDataByteChanged(r, i - 4, b);
    } else if i < n - 1 {
      assert r' == r.(checksum := r'.checksum);
      ChecksumChanged(r, r'.checksum);
    }
  }

  // ----- the V1 check -----

  /** V1's `_check_resp_cksum`; None when its assertion fails. A slice that ends before it starts is empty. */
  function CheckV1(resp: seq<Byte>): (r: Option<bool>)
  {
    if |resp| < 4 then None
    else
      var n := |resp|;
      var sum := Sum(if n >= 7 then resp[4..n - 3] else []) + resp[2] + resp[3];
      Some((0xFF - sum + 1) % 256 == resp[n - 2])
  }

  /** On a reply with the right frame V1 checks the low half of what V2 checks. */
  lemma CheckV1Is(resp: seq<Byte>)
    requires |resp| >= 7
    ensures var r := Parts(resp);
            CheckV1(resp) == Some((r.header[2] + r.header[3] + Sum(r.data) + r.checksum) % 256 == 0)
  {
    var r, n := Parts(resp), |resp|;
    LowByte(r.header[2] + r.header[3] + Sum(r.data), resp[n - 3], resp[n - 2]);
    hide Sum;
  }

  /** Eight bits of the complement are the low byte of what completes the sum. */
  lemma LowByte(x: int, high: int, low: Byte)
    ensures (0xFF - x + 1) % 256 == low <==> (x + Word(high, low)) % 256 == 0
  {
    var q, r := x / 256, x % 256;
    DivisionIs(0x100 - x, 256, if r == 0 then 1 - q else -q, if r == 0 then 0 else 0x100 - r);
    var carry := if r + low < 256 then 0 else 1;
    DivisionIs(x + Word(high, low), 256, q + high + carry, r + low - 256 * carry);
  }

  /** What V2 accepts passes V1's check. */
  lemma AcceptedPassesV1(resp: seq<Byte>)
    requires AcceptsBytes(resp)
    ensures CheckV1(resp) == Some(true)
  {
    CheckV1Is(resp);
    var r := Parts(resp);
    MultipleOf256(r.header[2] + r.header[3] + Sum(r.data) + r.checksum);
  }

  lemma MultipleOf256(x: int)
    requires x % 0x1_0000 == 0
    ensures x % 256 == 0
  {
  }

  /** The converse fails: a reply with a wrong high checksum byte passes V1 and is rejected by V2. */
  lemma V1MissesHighByte(resp: seq<Byte>, high: Byte)
    requires AcceptsBytes(resp) && high != resp[|resp| - 3]
    ensures CheckV1(resp[|resp| - 3 := high]) == Some(true) && !AcceptsBytes(resp[|resp| - 3 := high])
  {
    OneByteChanged(resp, |resp| - 3, high);
    AcceptedPassesV1(resp);
    SameCheckV1(resp, high);
    hide *;
  }

  lemma SameCheckV1(resp: seq<Byte>, high: Byte)
    requires |resp| >= 7
    ensures CheckV1(resp[|resp| - 3 := high]) == CheckV1(resp)
  {
    var i := |resp| - 3;
    assert resp[i := high][4..i] == resp[4..i];
  }

  // ----- the loops -----

  /** `compute_checksum`: a 16-bit accumulator, then the complement plus one in 16 bits. */
  method ComputeChecksum(payload: seq<Byte>) returns (checksum: nat)
    ensures checksum == Checksum(payload)
  {
    var sum: nat := 0;
    for i := 0 to |payload|
      invariant sum == Sum(payload[..i]) % 0x1_0000
    {
      assert payload[..i + 1][..i] == payload[..i];
      WrappedSum(Sum(payload[..i]), payload[i]);
      sum := (sum + payload[i]) % 0x1_0000;
    }
    assert payload[..|payload|] == payload;
    WrappedComplement(Sum(payload));
    return (0xFFFF - sum + 1) % 0x1_0000;
  }

  method WriteRegisterCommand(register: Byte, bytesToWrite: seq<Byte>) returns (command: seq<Byte>)
    ensures command == WriteCommand(register, bytesToWrite)
    ensures IsCommand(command, 0x5A, [register, |bytesToWrite| % 256] + bytesToWrite)
  {
    var payload := [register, |bytesToWrite| % 256];
    for i := 0 to |bytesToWrite|
      invariant payload == [register, |bytesToWrite| % 256] + bytesToWrite[..i]
    {
      payload := payload + [bytesToWrite[i]];
    }
    assert bytesToWrite[..|bytesToWrite|] == bytesToWrite;
    command := Finish(WRITE, payload);
  }

  method ReadRegisterCommand(register: Byte) returns (command: seq<Byte>)
    ensures command == ReadCommand(register)
    ensures IsCommand(command, 0xA5, [register, 0])
  {
    command := Finish(READ, [register, 0]);
  }

  /** The tail that both commands share. */
  method Finish(indicator: Byte, payload: seq<Byte>) returns (command: seq<Byte>)
    ensures command == Command(indicator, payload)
    ensures IsCommand(command, indicator, payload)
  {
    command := [STARTER, indicator];
    var checksum := ComputeChecksum(payload);
    for i := 0 to |payload|
      invariant command == [STARTER, indicator] + payload[..i]
    {
      command := command + [payload[i]];
    }
    assert payload[..|payload|] == payload;
    command := command + [checksum / 256 % 256];
    command := command + [checksum % 256];
    command := command + [ENDING];
  }

  method VerifyRecvChecksum(header: seq<Byte>, data: seq<Byte>, checksum: nat, ending: Byte) returns (ok: bool)
    requires checksum < 0x1_0000
    ensures ok == Accepts(Reply(header, data, checksum, ending))
    ensures ok == (&& |header| == 4 && header[0] == 0xDD && ending == 0x77 && header[3] == |data|
                   && (header[2] + header[3] + Sum(data) + checksum) % 0x1_0000 == 0)
  {
    if |header| != 4 || header[0] != STARTER || ending != ENDING {
      return false;
    }
    var status, length := header[2], header[3];
    if |data| != length {
      return false;
    }
    var payload := [status, length];
    for i := 0 to |data|
      invariant payload == [status, length] + data[..i]
    {
      payload := payload + [data[i]];
    }
    assert data[..|data|] == data;
    var expected := ComputeChecksum(payload);
    SumOfPayload(status, length, data);
    if expected != checksum {
      ClassMoves(Sum(payload), expected, checksum);
    }
    return expected == checksum;
  }

  /** The data length in a header. */
  function Announced(stream: seq<Byte>): (n: nat)
    requires |stream| >= 4
  {
    stream[3]
  }

  /** What arrives starts with a reply that V2 accepts. */
  predicate ReplyAhead(stream: seq<Byte>)
  {
    |stream| >= 4 && |stream| >= 7 + Announced(stream) && AcceptsBytes(stream[..7 + Announced(stream)])
  }

  // ----- asking three times -----

  /** One try of `query_info`: how many bytes the write reports, and what then arrives. */
  datatype Try = Try(written: int, arrives: seq<Byte>)

  predicate Succeeds(command: seq<Byte>, t: Try)
  {
    t.written == |command| && ReplyAhead(t.arrives)
  }

  /** What a try leaves in the variable `data`: nothing before the header has arrived, all there is of a reply that is
      cut short, and otherwise the data bytes, whether the checksum is right or not. */
  function DataOf(command: seq<Byte>, t: Try): (data: seq<Byte>)
  {
    if t.written != |command| || |t.arrives| < 4 then []
    else
      var n := Announced(t.arrives);
      if |t.arrives| < 7 + n then t.arrives[4..] else t.arrives[4..4 + n]
  }

  /** The number of the try after which `query_info` stops. */
  function Stop(command: seq<Byte>, tries: seq<Try>): (k: nat)
    requires tries != []
    ensures k < |tries| && (forall j :: 0 <= j < k ==> !Succeeds(command, tries[j]))
    ensures Succeeds(command, tries[k]) || k == |tries| - 1
  {
    if Succeeds(command, tries[0]) || |tries| == 1 then 0 else 1 + Stop(command, tries[1..])
  }

  /** The data that `query_info` returns are those of an accepted reply exactly if one of the tries succeeds; the caller
      is not told. */
  lemma QueryIsChecked(command: seq<Byte>, tries: seq<Try>)
    requires tries != []
    ensures Succeeds(command, tries[Stop(command, tries)]) <==> exists t :: t in tries && Succeeds(command, t)
  {
    var k := Stop(command, tries);
    if t :| t in tries && Succeeds(command, t) {
      var j :| 0 <= j < |tries| && tries[j] == t;
      assert j >= k;
    } else {
      assert tries[k] in tries;
    }
  }

  /** Three replies with a wrong checksum to the command that reads register 3: the data come back all the same. */
  lemma QueryReturnsUnchecked()
    ensures var bad := Try(7, [STARTER, 3, 0, 1, 42, 0, 0, ENDING]);
            && |ReadCommand(3)| == 7
            && Stop(ReadCommand(3), [bad, bad, bad]) == 2
            && !Succeeds(ReadCommand(3), bad)
            && DataOf(ReadCommand(3), bad) == [42]
  {
    var command, resp := ReadCommand(3), [STARTER, 3, 0, 1, 42, 0, 0, ENDING];
    var bad := Try(7, resp);
    assert |command| == 7;
    hide ReadCommand;
    BadReply(resp);
    assert [bad, bad, bad][1..] == [bad, bad] && [bad, bad][1..] == [bad];
  }

  lemma BadReply(resp: seq<Byte>)
    requires resp == [STARTER, 3, 0, 1, 42, 0, 0, ENDING]
    ensures !ReplyAhead(resp) && resp[4..5] == [42]
  {
    assert resp[..8] == resp;
    assert Parts(resp).data == [42] && [42][..0] == [];
    assert Sum([42]) == 42;
  }

  /** `query_info`. */
  method QueryInfo(command: seq<Byte>, tries: seq<Try>) returns (data: seq<Byte>)
    requires |tries| == 3
    ensures data == DataOf(command, tries[Stop(command, tries)])
  {
    data := [];
    var i := 0;
    while i < 3
      invariant 0 <= i <= 3
      invariant forall j :: 0 <= j < i ==> !Succeeds(command, tries[j])
      invariant i > 0 ==> data == DataOf(command, tries[i - 1])
    {
      var ok;
      ok, data := QueryOnce(command, tries[i]);
      if ok {
        return;
      }
      i := i + 1;
    }
  }

  method QueryOnce(command: seq<Byte>, t: Try) returns (ok: bool, data: seq<Byte>)
    ensures ok == Succeeds(command, t)
    ensures data == DataOf(command, t)
  {
    data := [];
    if t.written < 0 || t.written != |command| || |t.arrives| < 4 {
      return false, data;
    }
    var header := t.arrives[..4];
    var length: nat := header[3];
    data := if |t.arrives| < 4 + length + 3 then t.arrives[4..] else t.arrives[4..4 + length + 3];
    if |data| != length + 3 {
      return false, data;
    }
    var checksum := Word(data[|data| - 3], data[|data| - 2]);
    var ending := data[|data| - 1];
    data := data[..|data| - 3];
    ok := VerifyRecvChecksum(header, data, checksum, ending);
    TakenApart(t.arrives, length);
  }

  /** Reading the header first and then the rest takes a reply into the same parts. */
  lemma TakenApart(arrives: seq<Byte>, n: nat)
    requires |arrives| >= 7 + n
    ensures var rest := arrives[4..4 + n + 3];
            && rest[..n] == arrives[4..4 + n]
            && Parts(arrives[..7 + n]) == Reply(arrives[..4], rest[..n], Word(rest[n], rest[n + 1]), rest[n + 2])
  {
    var resp := arrives[..7 + n];
    assert resp[..4] == arrives[..4];
    assert resp[4..4 + n] == arrives[4..4 + n];
  }
}
