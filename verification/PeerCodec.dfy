/**
 * src/data/peer.pb-c.c and the conversions of src/data/peer.c: a peer as a protocol
 * buffers message, packed and unpacked by the table of field descriptors.
 */
module PeerCodec {
  import opened Bytes
  import opened Peers

  // ------------------------------------------------------------------------- table

  datatype FieldType = BytesField | StringField | Uint32Field

  datatype Field = Field(name: string, number: nat, kind: FieldType)

  /** All four fields carry the label `required`. */
  const DESCRIPTORS: seq<Field> := [
    Field("guid", 1, BytesField),
    Field("host_address", 2, StringField),
    Field("user_name", 3, StringField),
    Field("discovery_interval", 4, Uint32Field)]

  /** A Peer message; strings are given without their NUL. */
  datatype PeerMsg = PeerMsg(guid: seq<octet>, host: seq<octet>, name: seq<octet>, interval: u32)

  // ----------------------------------------------------------------------- varints

  /** Base 128 varint: seven bits a byte, lowest first, the top bit marks continuation. */
  function Varint(v: nat): (s: seq<octet>)
    ensures s != []
  {
    if v < 128 then [v] else [v % 128 + 128] + Varint(v / 128)
  }

  /** The length of the varint at the front, at most max bytes; 0 if there is none. */
  function VarintLen(s: seq<octet>, max: nat): (n: nat)
    ensures n <= |s| && n <= max
  {
    if max == 0 || s == [] then 0
    else if s[0] < 128 then 1
    else
      var n := VarintLen(s[1..], max - 1);
      if n == 0 then 0 else n + 1
  }

  function Value(s: seq<octet>): nat {
    if s == [] then 0 else s[0] % 128 + 128 * Value(s[1..])
  }

  // ----------------------------------------------------------------------- packing

  function WireType(k: FieldType): nat {
    if k.Uint32Field? then 0 else 2
  }

  function FieldBytes(m: PeerMsg, f: Field): seq<octet> {
    if f.number == 1 then m.guid else if f.number == 2 then m.host else m.name
  }

  function PackField(m: PeerMsg, f: Field): seq<octet> {
    Varint(8 * f.number + WireType(f.kind)) +
    if f.kind.Uint32Field? then Varint(m.interval)
    else Varint(|FieldBytes(m, f)|) + FieldBytes(m, f)
  }

  function PackFields(m: PeerMsg, fields: seq<Field>): seq<octet> {
    if fields == [] then [] else PackField(m, fields[0]) + PackFields(m, fields[1..])
  }

  /** peer__pack. */
  function Pack(m: PeerMsg): seq<octet> {
    PackFields(m, DESCRIPTORS)
  }

  /** The library's size of a 32-bit varint, by thresholds. */
  function Uint32Size(v: nat): nat {
    if v < 0x80 then 1 else if v < 0x4000 then 2 else if v < 0x20_0000 then 3 else if v < 0x1000_0000 then 4 else 5
  }

  /** And of a tag, with three bits for the wire type. */
  function TagSize(number: nat): nat {
    if number < 0x10 then 1 else if number < 0x800 then 2 else if number < 0x4_0000 then 3
    else if number < 0x200_0000 then 4 else 5
  }

  function FieldSize(m: PeerMsg, f: Field): nat {
    TagSize(f.number) +
    if f.kind.Uint32Field? then Uint32Size(m.interval)
    else Uint32Size(|FieldBytes(m, f)|) + |FieldBytes(m, f)|
  }

  function FieldsSize(m: PeerMsg, fields: seq<Field>): nat {
    if fields == [] then 0 else FieldSize(m, fields[0]) + FieldsSize(m, fields[1..])
  }

  /** peer__get_packed_size. */
  function PackedSize(m: PeerMsg): nat {
    FieldsSize(m, DESCRIPTORS)
  }

  // --------------------------------------------------------------------- unpacking

  /** One record as scanned: the field number, the wire type and the bytes of its value. */
  datatype Member = Member(number: nat, wire: nat, data: seq<octet>)

  datatype Scanned = Scanned(member: Member, length: nat)

  datatype Chunk = Chunk(data: seq<octet>, length: nat)

  /** The value of a record, by wire type: its bytes, and how many bytes it takes up. */
  function ReadValue(wire: nat, s: seq<octet>): (r: Option<Chunk>)
    ensures r.Some? ==> r.value.length <= |s|
  {
    if wire == 0 then
      var n := VarintLen(s, 10);
      if n == 0 then None else Some(Chunk(s[..n], n))
    else if wire == 2 then
      var h := VarintLen(s, 5);
      var n := Value(s[..h]);
      if h == 0 || |s| < h + n then None else Some(Chunk(s[h..h + n], h + n))
    else if wire == 1 && |s| >= 8 then Some(Chunk(s[..8], 8))
    else if wire == 5 && |s| >= 4 then Some(Chunk(s[..4], 4))
    else None
  }

  /** The record at the front of the input. */
  function FirstRecord(s: seq<octet>): (r: Option<Scanned>)
    ensures r.Some? ==> 0 < r.value.length <= |s|
  {
    var t := VarintLen(s, 5);
    if t == 0 then None
    else
      var key := Value(s[..t]);
      match ReadValue(key % 8, s[t..])
      case None => None
      case Some(c) => Some(Scanned(Member(key / 8, key % 8, c.data), t + c.length))
  }

  function Prepended(m: Member, ms: Option<seq<Member>>): Option<seq<Member>> {
    if ms.None? then None else Some([m] + ms.value)
  }

  function Scan(s: seq<octet>): Option<seq<Member>>
    decreases |s|
  {
    if s == [] then Some([])
    else
      match FirstRecord(s)
      case None => None
      case Some(r) => Prepended(r.member, Scan(s[r.length..]))
  }

  /** The fields set so far; a later record of the same field overrides. */
  datatype Draft = Draft(guid: Option<seq<octet>>, host: Option<seq<octet>>, name: Option<seq<octet>>,
                         interval: Option<u32>)

  function FieldOf(number: nat): Option<Field> {
    if 1 <= number <= 4 then Some(DESCRIPTORS[number - 1]) else None
  }

  /** A record of a known field must have the field's wire type; unknown ones are passed over. */
  function SetField(d: Draft, m: Member): Option<Draft> {
    match FieldOf(m.number)
    case None => Some(d)
    case Some(f) =>
      if m.wire != WireType(f.kind) then None
      else if f.number == 1 then Some(d.(guid := Some(m.data)))
      else if f.number == 2 then Some(d.(host := Some(m.data)))
      else if f.number == 3 then Some(d.(name := Some(m.data)))
      else Some(d.(interval := Some(Value(m.data) % 0x1_0000_0000)))
  }

  function SetFields(d: Draft, ms: seq<Member>): Option<Draft>
    decreases |ms|
  {
    if ms == [] then Some(d)
    else
      match SetField(d, ms[0])
      case None => None
      case Some(e) => SetFields(e, ms[1..])
  }

  const NOTHING := Draft(None, None, None, None)

  /** peer__unpack: every required field must have been seen. */
  function Unpack(s: seq<octet>): Option<PeerMsg> {
    match Scan(s)
    case None => None
    case Some(ms) =>
      match SetFields(NOTHING, ms)
      case None => None
      case Some(d) =>
        if d.guid.Some? && d.host.Some? && d.name.Some? && d.interval.Some?
        then Some(PeerMsg(d.guid.value, d.host.value, d.name.value, d.interval.value)) else None
  }

  // ---------------------------------------------------------------- varint lemmas

  lemma {:induction false} VarintSize(v: nat)
    requires v < 0x1_0000_0000
    ensures |Varint(v)| == Uint32Size(v)
  {
    if v >= 128 {
      VarintSize(v / 128);
    }
  }

  lemma {:induction false} ReadVarint(v: nat, rest: seq<octet>, max: nat)
    requires |Varint(v)| <= max
    ensures VarintLen(Varint(v) + rest, max) == |Varint(v)|
    ensures (Varint(v) + rest)[..|Varint(v)|] == Varint(v) && Value(Varint(v)) == v
  {
    var s := Varint(v) + rest;
    if v >= 128 {
      ReadVarint(v / 128, rest, max - 1);
      assert s[1..] == Varint(v / 128) + rest;
      assert Varint(v)[1..] == Varint(v / 128);
    }
  }

  lemma {:induction false} VarintStays(s: seq<octet>, rest: seq<octet>, max: nat)
    requires VarintLen(s, max) > 0
    ensures VarintLen(s + rest, max) == VarintLen(s, max)
  {
    if s[0] >= 128 {
      VarintStays(s[1..], rest, max - 1);
      assert (s + rest)[1..] == s[1..] + rest;
    }
  }

  // ------------------------------------------------------------------ scan lemmas

  lemma ValueStays(wire: nat, s: seq<octet>, rest: seq<octet>)
    requires ReadValue(wire, s).Some?
    ensures ReadValue(wire, s + rest) == ReadValue(wire, s)
  {
    if wire == 0 {
      VarintStays(s, rest, 10);
      assert (s + rest)[..VarintLen(s, 10)] == s[..VarintLen(s, 10)];
    } else if wire == 2 {
      VarintStays(s, rest, 5);
      var h := VarintLen(s, 5);
      assert (s + rest)[..h] == s[..h];
      var n := Value(s[..h]);
      assert (s + rest)[h..h + n] == s[h..h + n];
    } else if wire == 1 {
      assert (s + rest)[..8] == s[..8];
    } else {
      assert (s + rest)[..4] == s[..4];
    }
  }

  /** A complete record at the front is read the same whatever follows. */
  lemma FirstRecordStays(s: seq<octet>, rest: seq<octet>)
    requires FirstRecord(s).Some?
    ensures FirstRecord(s + rest) == FirstRecord(s)
  {
    var t := VarintLen(s, 5);
    VarintStays(s, rest, 5);
    SplitBefore(s, rest, t);
    ValueStays(Value(s[..t]) % 8, s[t..], rest);
  }

  function Joined(a: Option<seq<Member>>, b: Option<seq<Member>>): Option<seq<Member>> {
    if a.None? || b.None? then None else Some(a.value + b.value)
  }

  lemma PrependJoined(m: Member, a: Option<seq<Member>>, b: Option<seq<Member>>)
    ensures Prepended(m, Joined(a, b)) == Joined(Prepended(m, a), b)
  {
    if a.Some? && b.Some? {
      assert [m] + (a.value + b.value) == ([m] + a.value) + b.value;
    }
  }

  lemma ScanFirst(s: seq<octet>, r: Scanned, rest: seq<octet>)
    requires FirstRecord(s) == Some(r) && rest == s[r.length..]
    ensures Scan(s) == Prepended(r.member, Scan(rest))
  {
  }

  lemma ScanBoth(a: seq<octet>, b: seq<octet>, r: Scanned)
    requires FirstRecord(a) == Some(r)
    ensures Scan(a) == Prepended(r.member, Scan(a[r.length..]))
    ensures Scan(a + b) == Prepended(r.member, Scan(a[r.length..] + b))
  {
    FirstRecordStays(a, b);
    SplitBefore(a, b, r.length);
    ScanFirst(a + b, r, a[r.length..] + b);
    ScanFirst(a, r, a[r.length..]);
  }

  lemma ScanNothing(b: seq<octet>)
    ensures Scan([] + b) == Joined(Scan([]), Scan(b))
  {
    assert [] + b == b;
    assert Scan(b).Some? ==> [] + Scan(b).value == Scan(b).value;
  }

  /** A scan that succeeds on the first part is the scan of both parts, one after the other. */
  lemma {:induction false} ScanConcat(a: seq<octet>, b: seq<octet>)
    requires Scan(a).Some?
    ensures Scan(a + b) == Joined(Scan(a), Scan(b))
    decreases |a|
  {
    if a == [] {
      ScanNothing(b);
    } else {
      var r := FirstRecord(a).value;
      ScanBoth(a, b, r);
      ScanConcat(a[r.length..], b);
      PrependJoined(r.member, Scan(a[r.length..]), Scan(b));
    }
  }

  /** The record that packing a field produces. */
  function MemberOf(m: PeerMsg, f: Field): Member {
    Member(f.number, WireType(f.kind), if f.kind.Uint32Field? then Varint(m.interval) else FieldBytes(m, f))
  }

  predicate Packable(m: PeerMsg) {
    |m.guid| < 0x1_0000_0000 && |m.host| < 0x1_0000_0000 && |m.name| < 0x1_0000_0000
  }

  /** The value part of a packed field. */
  function PackedValue(m: PeerMsg, f: Field): seq<octet> {
    if f.kind.Uint32Field? then Varint(m.interval) else Varint(|FieldBytes(m, f)|) + FieldBytes(m, f)
  }

  lemma ReadPackedValue(m: PeerMsg, f: Field)
    requires Packable(m)
    ensures ReadValue(WireType(f.kind), PackedValue(m, f)) ==
            Some(Chunk(MemberOf(m, f).data, |PackedValue(m, f)|))
  {
    if f.kind.Uint32Field? {
      VarintSize(m.interval);
      ReadVarint(m.interval, [], 10);
      assert Varint(m.interval) + [] == Varint(m.interval);
    } else {
      var data := FieldBytes(m, f);
      VarintSize(|data|);
      ReadVarint(|data|, data, 5);
      var h := |Varint(|data|)|;
      assert PackedValue(m, f)[h..h + |data|] == data;
    }
  }

  lemma ScanField(m: PeerMsg, f: Field)
    requires Packable(m) && f.number < 0x1000
    ensures Scan(PackField(m, f)) == Some([MemberOf(m, f)])
  {
    var key, s := 8 * f.number + WireType(f.kind), PackField(m, f);
    assert s == Varint(key) + PackedValue(m, f);
    VarintSize(key);
    ReadVarint(key, PackedValue(m, f), 5);
    assert s[|Varint(key)|..] == PackedValue(m, f);
    assert key % 8 == WireType(f.kind) && key / 8 == f.number;
    ReadPackedValue(m, f);
    ScanOne(s);
  }

  lemma ScanOne(s: seq<octet>)
    requires FirstRecord(s).Some? && FirstRecord(s).value.length == |s|
    ensures Scan(s) == Some([FirstRecord(s).value.member])
  {
    assert s[|s|..] == [];
    assert Scan([]) == Some([]);
    assert [FirstRecord(s).value.member] + [] == [FirstRecord(s).value.member];
  }

  function MembersOf(m: PeerMsg, fields: seq<Field>): seq<Member> {
    if fields == [] then [] else [MemberOf(m, fields[0])] + MembersOf(m, fields[1..])
  }

  lemma {:induction false} ScanFields(m: PeerMsg, fields: seq<Field>)
    requires Packable(m) && forall i :: 0 <= i < |fields| ==> fields[i].number < 0x1000
    ensures Scan(PackFields(m, fields)) == Some(MembersOf(m, fields))
  {
    if fields != [] {
      ScanField(m, fields[0]);
      ScanFields(m, fields[1..]);
      ScanConcat(PackField(m, fields[0]), PackFields(m, fields[1..]));
    }
  }

  lemma {:induction false} SetConcat(d: Draft, a: seq<Member>, b: seq<Member>)
    requires SetFields(d, a).Some?
    ensures SetFields(d, a + b) == SetFields(SetFields(d, a).value, b)
    decreases |a|
  {
    if a == [] {
      assert a + b == b;
    } else {
      assert (a + b)[1..] == a[1..] + b;
      SetConcat(SetField(d, a[0]).value, a[1..], b);
    }
  }

  /** All four fields of a message, over whatever was there before. */
  lemma SetAll(d: Draft, m: PeerMsg)
    ensures SetFields(d, MembersOf(m, DESCRIPTORS)) ==
            Some(Draft(Some(m.guid), Some(m.host), Some(m.name), Some(m.interval)))
  {
    var a, b, c, e := MemberOf(m, DESCRIPTORS[0]), MemberOf(m, DESCRIPTORS[1]), MemberOf(m, DESCRIPTORS[2]),
                      MemberOf(m, DESCRIPTORS[3]);
    ReadVarint(m.interval, [], |Varint(m.interval)|);
    FourMembers(m);
    SetConcat(d, [a], [b, c, e]);
    var d1 := SetField(d, a).value;
    SetConcat(d1, [b], [c, e]);
    var d2 := SetField(d1, b).value;
    SetConcat(d2, [c], [e]);
    assert [a] + [b, c, e] == [a, b, c, e] && [b] + [c, e] == [b, c, e] && [c] + [e] == [c, e];
  }

  lemma FourMembers(m: PeerMsg)
    ensures MembersOf(m, DESCRIPTORS) ==
            [MemberOf(m, DESCRIPTORS[0]), MemberOf(m, DESCRIPTORS[1]),
             MemberOf(m, DESCRIPTORS[2]), MemberOf(m, DESCRIPTORS[3])]
  {
    var d := DESCRIPTORS;
    assert d[1..][1..] == d[2..] && d[2..][1..] == d[3..] && d[3..][1..] == [];
    assert MembersOf(m, d[3..]) == [MemberOf(m, d[3])];
    assert MembersOf(m, d[2..]) == [MemberOf(m, d[2]), MemberOf(m, d[3])];
    assert MembersOf(m, d[1..]) == [MemberOf(m, d[1]), MemberOf(m, d[2]), MemberOf(m, d[3])];
  }

  // -------------------------------------------------------------------- round trip

  lemma ScanPacked(m: PeerMsg, more: seq<octet>)
    requires Packable(m) && Scan(more).Some?
    ensures Scan(Pack(m) + more) == Some(MembersOf(m, DESCRIPTORS) + Scan(more).value)
  {
    ScanFields(m, DESCRIPTORS);
    ScanConcat(Pack(m), more);
  }

  /** A packed message, and any further records that the scanner accepts, unpack to the message. */
  lemma UnpackPacked(m: PeerMsg, more: seq<octet>)
    requires Packable(m) && Scan(more).Some?
    requires forall i :: 0 <= i < |Scan(more).value| ==> FieldOf(Scan(more).value[i].number).None?
    ensures Unpack(Pack(m) + more) == Some(m)
  {
    ScanPacked(m, more);
    SetAll(NOTHING, m);
    SetConcat(NOTHING, MembersOf(m, DESCRIPTORS), Scan(more).value);
    UnknownIgnored(SetFields(NOTHING, MembersOf(m, DESCRIPTORS)).value, Scan(more).value);
  }

  lemma {:induction false} UnknownIgnored(d: Draft, ms: seq<Member>)
    requires forall i :: 0 <= i < |ms| ==> FieldOf(ms[i].number).None?
    ensures SetFields(d, ms) == Some(d)
  {
    if ms != [] {
      UnknownIgnored(d, ms[1..]);
    }
  }

  // ------------------------------------------------------------- what is accepted

  predicate HasField(d: Draft, number: nat) {
    (number == 1 && d.guid.Some?) || (number == 2 && d.host.Some?) || (number == 3 && d.name.Some?)
    || (number == 4 && d.interval.Some?)
  }

  predicate WireFits(m: Member) {
    FieldOf(m.number).Some? ==> m.wire == WireType(FieldOf(m.number).value.kind)
  }

  predicate Occurs(ms: seq<Member>, number: nat) {
    exists i :: 0 <= i < |ms| && ms[i].number == number
  }

  /** Which fields are set, and when none is rejected. */
  lemma {:induction false} SetFieldsIff(d: Draft, ms: seq<Member>, number: nat)
    requires 1 <= number <= 4
    ensures SetFields(d, ms).Some? <==> forall i :: 0 <= i < |ms| ==> WireFits(ms[i])
    ensures SetFields(d, ms).Some? ==>
              (HasField(SetFields(d, ms).value, number) <==> HasField(d, number) || Occurs(ms, number))
    decreases |ms|
  {
    if ms != [] {
      var rest := ms[1..];
      assert forall i :: 0 <= i < |rest| ==> rest[i] == ms[i + 1];
      assert WireFits(ms[0]) <==> SetField(d, ms[0]).Some?;
      if SetField(d, ms[0]).Some? {
        SetFieldsIff(SetField(d, ms[0]).value, rest, number);
        OccursNext(ms, number);
        assert forall i :: 0 < i < |ms| ==> ms[i] == rest[i - 1];
      }
    }
  }

  lemma OccursNext(ms: seq<Member>, number: nat)
    requires ms != []
    ensures Occurs(ms, number) <==> ms[0].number == number || Occurs(ms[1..], number)
  {
    if Occurs(ms, number) && ms[0].number != number {
      var i :| 0 <= i < |ms| && ms[i].number == number;
      assert ms[1..][i - 1].number == number;
    }
    if Occurs(ms[1..], number) {
      var i :| 0 <= i < |ms[1..]| && ms[1..][i].number == number;
      assert ms[i + 1].number == number;
    }
  }

  /** Bytes are taken for a peer exactly if they scan, known fields have their wire types, and none is missing. */
  lemma UnpackIff(s: seq<octet>)
    ensures Unpack(s).Some? <==>
            && Scan(s).Some? && (forall i :: 0 <= i < |Scan(s).value| ==> WireFits(Scan(s).value[i]))
            && Occurs(Scan(s).value, 1) && Occurs(Scan(s).value, 2) && Occurs(Scan(s).value, 3)
            && Occurs(Scan(s).value, 4)
  {
    if Scan(s).Some? {
      SetFieldsIff(NOTHING, Scan(s).value, 1);
      SetFieldsIff(NOTHING, Scan(s).value, 2);
      SetFieldsIff(NOTHING, Scan(s).value, 3);
      SetFieldsIff(NOTHING, Scan(s).value, 4);
    }
  }

  lemma {:induction false} VarintCut(v: nat, j: nat, max: nat)
    requires j < |Varint(v)|
    ensures VarintLen(Varint(v)[..j], max) == 0
  {
    if j > 0 && max > 0 {
      VarintCut(v / 128, j - 1, max - 1);
      assert Varint(v)[..j][1..] == Varint(v / 128)[..j - 1];
    }
  }

  lemma ValueCut(m: PeerMsg, f: Field, j: nat)
    requires Packable(m) && j < |PackedValue(m, f)|
    ensures ReadValue(WireType(f.kind), PackedValue(m, f)[..j]) == None
  {
    var s := PackedValue(m, f)[..j];
    if f.kind.Uint32Field? {
      VarintCut(m.interval, j, 10);
    } else {
      var data := FieldBytes(m, f);
      var h := Varint(|data|);
      if j < |h| {
        assert s == h[..j];
        VarintCut(|data|, j, 5);
      } else {
        VarintSize(|data|);
        assert s == h + data[..j - |h|];
        ReadVarint(|data|, data[..j - |h|], 5);
      }
    }
  }

  /** A record with a tag of one byte. */
  lemma TagRead(number: nat, wire: nat, rest: seq<octet>)
    requires number < 0x10 && wire < 8
    ensures FirstRecord([8 * number + wire] + rest) ==
            match ReadValue(wire, rest)
            case None => None
            case Some(c) => Some(Scanned(Member(number, wire, c.data), 1 + c.length))
  {
    var key := 8 * number + wire;
    var s := [key] + rest;
    assert s[..1] == [key] && s[1..] == rest && [key][1..] == [];
    assert VarintLen(s, 5) == 1 && Value([key]) == key;
  }

  lemma PackedTag(m: PeerMsg, f: Field)
    requires f.number < 0x10
    ensures PackField(m, f) == [8 * f.number + WireType(f.kind)] + PackedValue(m, f)
  {
  }

  /** A record that is cut is no record. */
  lemma RecordCut(m: PeerMsg, f: Field, k: nat)
    requires Packable(m) && f.number < 0x10 && 0 < k < |PackField(m, f)|
    ensures Scan(PackField(m, f)[..k]) == None
  {
    PackedTag(m, f);
    CutAfterFirst(8 * f.number + WireType(f.kind), PackedValue(m, f), k);
    TagRead(f.number, WireType(f.kind), PackedValue(m, f)[..k - 1]);
    ValueCut(m, f, k - 1);
  }

  /** Records of the first few fields, not of all; or none that could be read. */
  predicate FallsShort(out: Option<seq<Member>>, fields: seq<Field>) {
    out.Some? ==>
      |out.value| < |fields| && forall i :: 0 <= i < |out.value| ==> out.value[i].number == fields[i].number
  }

  lemma ShortBehind(m: PeerMsg, out: Option<seq<Member>>, fields: seq<Field>)
    requires fields != [] && FallsShort(out, fields[1..])
    ensures FallsShort(Prepended(MemberOf(m, fields[0]), out), fields)
  {
  }

  lemma CutInFirst(m: PeerMsg, fields: seq<Field>, k: nat)
    requires Packable(m) && fields != [] && fields[0].number < 0x10 && k < |PackField(m, fields[0])|
    ensures FallsShort(Scan(PackFields(m, fields)[..k]), fields)
  {
    assert PackFields(m, fields)[..k] == PackField(m, fields[0])[..k];
    if k > 0 {
      RecordCut(m, fields[0], k);
    }
  }

  predicate SmallNumbers(fields: seq<Field>) {
    forall i :: 0 <= i < |fields| ==> fields[i].number < 0x10
  }

  lemma FieldsLength(m: PeerMsg, fields: seq<Field>)
    requires fields != []
    ensures |PackFields(m, fields)| == |PackField(m, fields[0])| + |PackFields(m, fields[1..])|
    ensures SmallNumbers(fields) ==> fields[0].number < 0x10 && SmallNumbers(fields[1..])
  {
  }

  /** What is scanned of packed fields that are cut. */
  lemma {:induction false} FieldsCut(m: PeerMsg, fields: seq<Field>, k: nat)
    requires Packable(m) && SmallNumbers(fields) && k < |PackFields(m, fields)|
    ensures FallsShort(Scan(PackFields(m, fields)[..k]), fields)
    decreases |fields|
  {
    var n := |PackField(m, fields[0])|;
    FieldsLength(m, fields);
    if k < n {
      CutInFirst(m, fields, k);
    } else {
      FieldsCut(m, fields[1..], k - n);
      CutInRest(m, fields, k - n);
    }
  }

  lemma CutInRest(m: PeerMsg, fields: seq<Field>, j: nat)
    requires Packable(m) && fields != [] && fields[0].number < 0x10 && j <= |PackFields(m, fields[1..])|
    requires FallsShort(Scan(PackFields(m, fields[1..])[..j]), fields[1..])
    ensures FallsShort(Scan(PackFields(m, fields)[..|PackField(m, fields[0])| + j]), fields)
  {
    FieldBefore(m, fields, j);
    ShortBehind(m, Scan(PackFields(m, fields[1..])[..j]), fields);
  }

  lemma FieldBefore(m: PeerMsg, fields: seq<Field>, j: nat)
    requires Packable(m) && fields != [] && fields[0].number < 0x10 && j <= |PackFields(m, fields[1..])|
    ensures Scan(PackFields(m, fields)[..|PackField(m, fields[0])| + j])
         == Prepended(MemberOf(m, fields[0]), Scan(PackFields(m, fields[1..])[..j]))
  {
    var first, rest := PackField(m, fields[0]), PackFields(m, fields[1..]);
    CutAfter(first, rest, j);
    ScanField(m, fields[0]);
    ScanConcat(first, rest[..j]);
  }

  /** A packed message that is cut anywhere is rejected. */
  lemma CutRejected(m: PeerMsg, k: nat)
    requires Packable(m) && k < |Pack(m)|
    ensures Unpack(Pack(m)[..k]) == None
  {
    FieldsCut(m, DESCRIPTORS, k);
    UnpackIff(Pack(m)[..k]);
  }

  /** A record of eight or four fixed bytes is passed over as a whole. */
  lemma FixedRecords(number: nat, data: seq<octet>)
    requires 0 < number < 0x10 && (|data| == 8 || |data| == 4)
    ensures
      var wire := if |data| == 8 then 1 else 5;
      Scan([8 * number + wire] + data) == Some([Member(number, wire, data)])
  {
    var wire := if |data| == 8 then 1 else 5;
    assert data[..|data|] == data;
    TagRead(number, wire, data);
    ScanOne([8 * number + wire] + data);
  }

  /** The bytes on the wire, field by field (Protocol Buffers encoding, "Message Structure"). */
  lemma WireLayout(m: PeerMsg)
    ensures Pack(m) ==
            ([0x0A] + Varint(|m.guid|) + m.guid) + ([0x12] + Varint(|m.host|) + m.host)
            + ([0x1A] + Varint(|m.name|) + m.name) + ([0x20] + Varint(m.interval))
  {
    var d := DESCRIPTORS;
    assert d[1..][1..] == d[2..] && d[2..][1..] == d[3..] && d[3..][1..] == [];
    assert PackField(m, d[0]) == [0x0A] + Varint(|m.guid|) + m.guid;
    assert PackField(m, d[1]) == [0x12] + Varint(|m.host|) + m.host;
    assert PackField(m, d[2]) == [0x1A] + Varint(|m.name|) + m.name;
    assert PackField(m, d[3]) == [0x20] + Varint(m.interval);
    assert PackFields(m, d[3..]) == PackField(m, d[3]) + [] == PackField(m, d[3]);
    assert PackFields(m, d[2..]) == PackField(m, d[2]) + PackField(m, d[3]);
    assert PackFields(m, d[1..]) == PackField(m, d[1]) + (PackField(m, d[2]) + PackField(m, d[3]));
  }

  /** Two of the specification's own examples. */
  lemma VarintExamples()
    ensures Varint(150) == [0x96, 0x01] && Varint(300) == [0xAC, 0x02]
  {
    assert Varint(150) == [150 % 128 + 128] + Varint(1);
    assert Varint(300) == [300 % 128 + 128] + Varint(2);
  }

  /** Of two packed messages in a row the second one counts. */
  lemma LastMessageWins(m: PeerMsg, l: PeerMsg)
    requires Packable(m) && Packable(l)
    ensures Unpack(Pack(m) + Pack(l)) == Some(l)
  {
    ScanFields(m, DESCRIPTORS);
    ScanFields(l, DESCRIPTORS);
    ScanConcat(Pack(m), Pack(l));
    SetAll(NOTHING, m);
    SetConcat(NOTHING, MembersOf(m, DESCRIPTORS), MembersOf(l, DESCRIPTORS));
    SetAll(SetFields(NOTHING, MembersOf(m, DESCRIPTORS)).value, l);
  }

  lemma {:induction false} FieldsSizeExact(m: PeerMsg, fields: seq<Field>)
    requires Packable(m) && forall i :: 0 <= i < |fields| ==> fields[i].number < 0x1000
    ensures FieldsSize(m, fields) == |PackFields(m, fields)|
  {
    if fields != [] {
      FieldsSizeExact(m, fields[1..]);
      VarintSize(8 * fields[0].number + WireType(fields[0].kind));
      VarintSize(m.interval);
      VarintSize(|FieldBytes(m, fields[0])|);
    }
  }

  /** The size computed before packing is the number of bytes packed. */
  lemma PackedSizeExact(m: PeerMsg)
    requires Packable(m)
    ensures PackedSize(m) == |Pack(m)|
  {
    FieldsSizeExact(m, DESCRIPTORS);
  }

  // ---------------------------------------------------------------- peer.c

  /** What ntopeer leaves behind; damage is a guid of the wrong length or no user name. */
  datatype Decoded = NoPeer | Damaged | Whole(peer: Peer)

  function MsgOf(p: Peer): PeerMsg {
    PeerMsg(p.guid, p.host, p.name, p.interval)
  }

  predicate Sendable(p: Peer) {
    |p.host| < 0x1_0000_0000 && |p.name| < 0x1_0000_0000
  }

  /**
   * ntopeer and peer_create: strings end at their first NUL.  The guid is copied with the
   * length received, and an empty user name leaves the field unset.  last_seen is not set
   * here; it is 0 until the peer is stored.
   */
  function NtoPeer(s: seq<octet>): Decoded {
    match Unpack(s)
    case None => NoPeer
    case Some(m) =>
      if |m.guid| != 16 || TextOf(m.name) == [] then Damaged
      else Whole(Peer(m.guid, TextOf(m.host), TextOf(m.name), m.interval, 0))
  }

  /** peerton: the guid is copied byte by byte, and the buffer is as long as computed. */
  method Peerton(p: Peer) returns (out: array<octet>)
    requires Sendable(p)
    ensures fresh(out) && out.Length == PackedSize(MsgOf(p)) && out[..] == Pack(MsgOf(p))
  {
    var guid := new octet[16];
    var i := 0;
    while i < 16
      invariant i <= 16 && guid[..i] == p.guid[..i]
    {
      guid[i] := p.guid[i];
      i := i + 1;
    }
    var msg := PeerMsg(guid[..], p.host, p.name, p.interval);
    assert guid[..] == guid[..16] && p.guid[..16] == p.guid;
    PackedSizeExact(msg);
    var bytes := Pack(msg);
    out := new octet[PackedSize(msg)](j requires 0 <= j < |bytes| => bytes[j]);
  }

  /** Which field of a peer goes where on the wire. */
  lemma PeerOnWire(p: Peer)
    ensures Pack(MsgOf(p)) ==
            ([0x0A] + Varint(16) + p.guid) + ([0x12] + Varint(|p.host|) + p.host)
            + ([0x1A] + Varint(|p.name|) + p.name) + ([0x20] + Varint(p.interval))
  {
    WireLayout(MsgOf(p));
  }

  /** A peer comes back with the same four fields exactly when it has a user name. */
  lemma RoundTripIff(p: Peer)
    requires Sendable(p)
    ensures NtoPeer(Pack(MsgOf(p))) == Whole(p.(lastSeen := 0)) <==> p.name != []
  {
    assert Scan([]) == Some([]);
    assert Pack(MsgOf(p)) + [] == Pack(MsgOf(p));
    UnpackPacked(MsgOf(p), []);
    StrLenIs(p.host, 0, |p.host|);
    StrLenIs(p.name, 0, |p.name|);
    assert p.host[..|p.host|] == p.host && p.name[..|p.name|] == p.name;
  }
}
