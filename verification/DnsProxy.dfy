/** The DNS proxy's packets (wpr/dnsproxy.py) against a decoder of RFC 1035 messages
    (sections 3.1 and 4.1.1 to 4.1.4). */
module DnsProxy {
  import opened Basics

  type Byte = n: int | 0 <= n < 256
  type Bytes = seq<Byte>
  type Label = Bytes

  const DOT: Byte := 46
  const HEADER := 12

  // ---------------------------------------------------------------- names on the wire

  predicate ValidLabels(labels: seq<Label>, longest: nat) {
    labels != [] ==> 1 <= |labels[0]| <= longest && ValidLabels(labels[1..], longest)
  }

  /** Section 3.1: a length byte before every label, a zero byte at the end. */
  function EncodeName(labels: seq<Label>): (r: Bytes)
    requires ValidLabels(labels, 255)
    ensures r != []
  {
    if labels == [] then [0] else Sized(labels[0]) + EncodeName(labels[1..])
  }

  function Sized(name: Label): (r: Bytes)
    requires |name| <= 255
    ensures |r| == 1 + |name|
  {
    [|name|] + name
  }

  function Dotted(labels: seq<Label>): Bytes {
    if labels == [] then [] else labels[0] + [DOT] + Dotted(labels[1..])
  }

  predicate HasAt(msg: Bytes, off: nat, part: Bytes) {
    off + |part| <= |msg| && msg[off..off + |part|] == part
  }

  lemma HasParts(msg: Bytes, off: nat, a: Bytes, b: Bytes)
    requires HasAt(msg, off, a + b)
    ensures HasAt(msg, off, a) && HasAt(msg, off + |a|, b)
  {
    assert msg[off..off + |a + b|][..|a|] == a && msg[off..off + |a + b|][|a|..] == b;
  }

  lemma HasJoin(msg: Bytes, off: nat, a: Bytes, b: Bytes)
    requires HasAt(msg, off, a) && HasAt(msg, off + |a|, b)
    ensures HasAt(msg, off, a + b)
  {
    assert msg[off..off + |a| + |b|] == msg[off..off + |a|] + msg[off + |a|..off + |a| + |b|];
  }

  lemma HasByte(msg: Bytes, off: nat, b: Byte)
    ensures HasAt(msg, off, [b]) <==> off < |msg| && msg[off] == b
  {
    if off < |msg| {
      assert msg[off..off + 1] == [msg[off]];
    }
  }

  /** The labels an encoded name starts with. */
  lemma HasLabel(msg: Bytes, off: nat, labels: seq<Label>)
    requires ValidLabels(labels, 255) && labels != [] && HasAt(msg, off, EncodeName(labels))
    ensures msg[off] == |labels[0]| && HasAt(msg, off + 1, labels[0])
    ensures HasAt(msg, off + 1 + |labels[0]|, EncodeName(labels[1..]))
  {
    EncodeCons(labels);
    hide EncodeName, HasAt;
    HasParts(msg, off, Sized(labels[0]), EncodeName(labels[1..]));
    HasSized(msg, off, labels[0]);
  }

  lemma HasSized(msg: Bytes, off: nat, name: Label)
    requires |name| <= 255
    ensures HasAt(msg, off, Sized(name)) <==> off < |msg| && msg[off] == |name| && HasAt(msg, off + 1, name)
  {
    hide HasAt;
    var size: Byte := |name|;
    HasByte(msg, off, size);
    if HasAt(msg, off, Sized(name)) {
      HasParts(msg, off, [size], name);
    } else if HasAt(msg, off, [size]) && HasAt(msg, off + 1, name) {
      HasJoin(msg, off, [size], name);
    }
  }

  lemma EncodeCons(labels: seq<Label>)
    requires ValidLabels(labels, 255) && labels != []
    ensures EncodeName(labels) == Sized(labels[0]) + EncodeName(labels[1..])
  {
  }

  /** A label in front of a name. */
  lemma ConsName(msg: Bytes, off: nat, labels: seq<Label>)
    requires ValidLabels(labels, 255) && labels != [] && off < |msg| && msg[off] == |labels[0]|
    requires HasAt(msg, off + 1, labels[0]) && HasAt(msg, off + 1 + |labels[0]|, EncodeName(labels[1..]))
    ensures HasAt(msg, off, EncodeName(labels))
  {
    EncodeCons(labels);
    hide EncodeName, HasAt;
    HasSized(msg, off, labels[0]);
    HasJoin(msg, off, Sized(labels[0]), EncodeName(labels[1..]));
  }

  // ---------------------------------------------------------------- the label loop

  /** Python's slice, cut off at the end of the string. */
  function Slice(s: Bytes, from: nat, to: nat): Bytes
    requires from <= to
  {
    s[if from <= |s| then from else |s|..if to <= |s| then to else |s|]
  }

  /** None is the IndexError of reading past the end. */
  function DomainFrom(wire: Bytes, index: nat): Option<Bytes>
    decreases |wire| - index
  {
    if index >= |wire| then None
    else if wire[index] == 0 then Some([])
    else Prefixed(Slice(wire, index + 1, index + wire[index] + 1) + [DOT], DomainFrom(wire, index + wire[index] + 1))
  }

  function Prefixed(name: Bytes, rest: Option<Bytes>): Option<Bytes> {
    match rest case None => None case Some(r) => Some(name + r)
  }

  lemma PrefixedTwice(name: Bytes, more: Bytes, rest: Option<Bytes>)
    ensures Prefixed(name, Prefixed(more, rest)) == Prefixed(name + more, rest)
    ensures Prefixed([], rest) == rest
    ensures Prefixed(name, Some([])) == Some(name)
  {
    assert name + [] == name;
    if rest.Some? {
      assert name + (more + rest.value) == (name + more) + rest.value;
      assert [] + rest.value == rest.value;
    }
  }

  method Domain(wire: Bytes) returns (domain: Option<Bytes>)
    ensures domain == DomainFrom(wire, 0)
  {
    hide Prefixed;
    if |wire| == 0 {
      return None;
    }
    var name: Bytes, index, length := [], 0, wire[0];
    PrefixedTwice([], [], DomainFrom(wire, 0));
    while length != 0
      invariant index < |wire| && length == wire[index]
      invariant DomainFrom(wire, 0) == Prefixed(name, DomainFrom(wire, index))
      decreases |wire| - index
    {
      var piece := Slice(wire, index + 1, index + length + 1) + [DOT];
      PrefixedTwice(name, piece, DomainFrom(wire, index + length + 1));
      name := name + piece;
      index := index + length + 1;
      if index >= |wire| {
        PrefixedNone(name);
        return None;
      }
      length := wire[index];
    }
    PrefixedTwice(name, [], None);
    domain := Some(name);
  }

  lemma PrefixedNone(name: Bytes)
    ensures Prefixed(name, None) == None
  {
  }

  lemma {:induction false} DomainOfName(wire: Bytes, index: nat, labels: seq<Label>)
    requires ValidLabels(labels, 255) && HasAt(wire, index, EncodeName(labels))
    ensures DomainFrom(wire, index) == Some(Dotted(labels))
    decreases |labels|
  {
    if labels == [] {
      HasByte(wire, index, 0);
    } else {
      HasLabel(wire, index, labels);
      DomainStep(wire, index, labels[0]);
      hide DomainFrom, HasAt;
      DomainOfName(wire, index + 1 + |labels[0]|, labels[1..]);
    }
  }

  lemma DomainStep(wire: Bytes, index: nat, part: Label)
    requires index < |wire| && wire[index] == |part| > 0 && HasAt(wire, index + 1, part)
    ensures DomainFrom(wire, index) == Prefixed(part + [DOT], DomainFrom(wire, index + 1 + |part|))
  {
    SliceIs(wire, index + 1, part);
  }

  lemma SliceIs(s: Bytes, off: nat, part: Bytes)
    requires HasAt(s, off, part)
    ensures Slice(s, off, off + |part|) == part
  {
  }

  lemma {:induction false} NameOfDomain(wire: Bytes, index: nat) returns (labels: seq<Label>)
    requires DomainFrom(wire, index).Some?
    ensures ValidLabels(labels, 255) && HasAt(wire, index, EncodeName(labels))
    decreases |wire| - index
  {
    if wire[index] == 0 {
      labels := [];
    } else {
      var length := wire[index];
      var rest := NameOfDomain(wire, index + length + 1);
      var first := wire[index + 1..index + length + 1];
      labels := [first] + rest;
      assert labels[1..] == rest;
      ConsName(wire, index, labels);
    }
  }

  /** The label loop inverts label encoding, whatever follows the name, and succeeds on nothing but
      terminated names: every other input ends in an IndexError. */
  lemma DomainInvertsEncoding(wire: Bytes)
    ensures forall labels :: StartsWithName(wire, labels) ==> DomainFrom(wire, 0) == Some(Dotted(labels))
    ensures DomainFrom(wire, 0).Some? <==> exists labels :: StartsWithName(wire, labels)
  {
    forall labels | StartsWithName(wire, labels) ensures DomainFrom(wire, 0) == Some(Dotted(labels)) {
      DomainOfName(wire, 0, labels);
    }
    if DomainFrom(wire, 0).Some? {
      var labels := NameOfDomain(wire, 0);
      assert StartsWithName(wire, labels);
    }
  }

  ghost predicate StartsWithName(wire: Bytes, labels: seq<Label>) {
    ValidLabels(labels, 255) && HasAt(wire, 0, EncodeName(labels))
  }

  // ---------------------------------------------------------------- the response

  type Ip = b: Bytes | |b| == 4 witness [0, 0, 0, 0]

  datatype Reply = IndexError | NoSuchName | Packet(bytes: Bytes)

  /** The answer record: a pointer to offset 12, type A, class IN, 60 seconds, four bytes of data. */
  const ANSWER_HEAD: Bytes := [0xc0, 0x0c, 0, 1, 0, 1, 0, 0, 0, 0x3c, 0, 4]

  function DnsResponse(data: Bytes, domain: Bytes, ip: Ip): Bytes
    requires |data| >= HEADER
  {
    if domain == [] then []
    else data[..2] + [0x81, 0x80] + data[4..6] + data[4..6] + [0, 0, 0, 0]
         + data[HEADER..] + ANSWER_HEAD + ip
  }

  function Opcode(data: Bytes): nat
    requires |data| >= 3
  {
    data[2] / 8 % 16
  }

  function Handle(data: Bytes, lookup: Bytes -> Option<Ip>): Reply {
    if |data| < 3 then IndexError
    else
      var wire := Slice(data, HEADER, HEADER + |data|);
      var domain := if Opcode(data) == 0 then DomainFrom(wire, 0) else Some([]);
      if domain.None? then IndexError
      else match lookup(domain.value)
        case None => NoSuchName
        case Some(ip) => Packet(if domain.value == [] then [] else DnsResponse(data, domain.value, ip))
  }

  /** The operation code is the four bits behind the top one of the third byte. */
  lemma OpcodeBits(data: Bytes, response: nat, opcode: nat, rest: nat)
    requires |data| >= 3 && response < 2 && opcode < 16 && rest < 8 && data[2] == 128 * response + 8 * opcode + rest
    ensures Opcode(data) == opcode
  {
  }

  /** What a query gets. One that breaks off before its third byte or inside the name of a standard query ends in
      an IndexError. Any other is answered for its name, and for the empty name if it is no standard query:
      with no such name if the lookup knows none, with an empty packet for the empty name, and with the
      response otherwise. */
  lemma QueryGets(data: Bytes, lookup: Bytes -> Option<Ip>)
    ensures var wire := if |data| > HEADER then data[HEADER..] else [];
      var reply := Handle(data, lookup);
      && (reply == IndexError <==> || |data| < 3
                                   || (Opcode(data) == 0 && !exists labels :: StartsWithName(wire, labels)))
      && (|data| >= 3 && Opcode(data) != 0 ==>
            reply == match lookup([]) case None => NoSuchName case Some(_) => Packet([]))
      && (forall labels :: |data| >= 3 && Opcode(data) == 0 && StartsWithName(wire, labels) ==>
            reply == match lookup(Dotted(labels))
                     case None => NoSuchName
                     case Some(ip) => Packet(if labels == [] then [] else DnsResponse(data, Dotted(labels), ip)))
  {
    var wire := if |data| > HEADER then data[HEADER..] else [];
    if |data| >= 3 {
      assert Slice(data, HEADER, HEADER + |data|) == wire;
      DomainInvertsEncoding(wire);
      forall labels ensures Dotted(labels) == [] <==> labels == [] {
      }
    }
  }

  // ---------------------------------------------------------------- decoding messages

  datatype Name = Name(labels: seq<Label>, next: nat)
  datatype Question = Question(name: seq<Label>, qtype: nat, qclass: nat)
  datatype Record = Record(name: seq<Label>, rtype: nat, rclass: nat, ttl: nat, rdata: Bytes)
  datatype Message = Message(id: nat, flags: nat, questions: seq<Question>, answers: seq<Record>)

  function U16(msg: Bytes, off: nat): nat
    requires off + 2 <= |msg|
  {
    (msg[off] as nat) * 256 + msg[off + 1]
  }

  /** Section 4.1.4: labels, then a zero byte or a pointer to a name that starts before `limit`. */
  function DecodeName(msg: Bytes, off: nat, limit: nat): Option<Name>
    decreases limit, |msg| - off
  {
    if off >= |msg| then None
    else if msg[off] == 0 then Some(Name([], off + 1))
    else if msg[off] >= 192 then
      if off + 2 > |msg| || U16(msg, off) - 0xc000 >= limit then None
      else
        var target := U16(msg, off) - 0xc000;
        match DecodeName(msg, target, target)
        case None => None
        case Some(n) => Some(Name(n.labels, off + 2))
    else if msg[off] >= 64 || off + 1 + msg[off] > |msg| then None
    else match DecodeName(msg, off + 1 + msg[off], limit)
      case None => None
      case Some(n) => Some(Name([msg[off + 1..off + 1 + msg[off]]] + n.labels, n.next))
  }

  function DecodeQuestion(msg: Bytes, off: nat): Option<(Question, nat)> {
    match DecodeName(msg, off, off)
    case None => None
    case Some(n) =>
      if n.next + 4 > |msg| then None
      else Some((Question(n.labels, U16(msg, n.next), U16(msg, n.next + 2)), n.next + 4))
  }

  function DecodeRecord(msg: Bytes, off: nat): Option<(Record, nat)> {
    match DecodeName(msg, off, off)
    case None => None
    case Some(n) =>
      if n.next + 10 > |msg| then None
      else
        var end := n.next + 10 + U16(msg, n.next + 8);
        if end > |msg| then None
        else
          var ttl := U16(msg, n.next + 4) * 0x10000 + U16(msg, n.next + 6);
          Some((Record(n.labels, U16(msg, n.next), U16(msg, n.next + 2), ttl, msg[n.next + 10..end]), end))
  }

  function DecodeQuestions(msg: Bytes, off: nat, n: nat): Option<(seq<Question>, nat)>
    decreases n
  {
    if n == 0 then Some(([], off))
    else match DecodeQuestion(msg, off)
      case None => None
      case Some(q) => match DecodeQuestions(msg, q.1, n - 1)
        case None => None
        case Some(rest) => Some(([q.0] + rest.0, rest.1))
  }

  function DecodeRecords(msg: Bytes, off: nat, n: nat): Option<(seq<Record>, nat)>
    decreases n
  {
    if n == 0 then Some(([], off))
    else match DecodeRecord(msg, off)
      case None => None
      case Some(r) => match DecodeRecords(msg, r.1, n - 1)
        case None => None
        case Some(rest) => Some(([r.0] + rest.0, rest.1))
  }

  /** A message of questions and answers only, with nothing behind them. */
  function DecodeMessage(msg: Bytes): Option<Message> {
    if |msg| < HEADER || U16(msg, 8) != 0 || U16(msg, 10) != 0 then None
    else match DecodeQuestions(msg, HEADER, U16(msg, 4))
      case None => None
      case Some(qs) => match DecodeRecords(msg, qs.1, U16(msg, 6))
        case None => None
        case Some(rs) =>
          if rs.1 != |msg| then None else Some(Message(U16(msg, 0), U16(msg, 2), qs.0, rs.0))
  }

  lemma {:induction false} DecodeEncodedName(msg: Bytes, off: nat, labels: seq<Label>, limit: nat)
    requires ValidLabels(labels, 63) && ValidLabels(labels, 255) && HasAt(msg, off, EncodeName(labels))
    ensures DecodeName(msg, off, limit) == Some(Name(labels, off + |EncodeName(labels)|))
    decreases labels
  {
    if labels == [] {
      HasByte(msg, off, 0);
    } else {
      HasLabel(msg, off, labels);
      DecodeStep(msg, off, labels[0], limit);
      EncodeCons(labels);
      hide EncodeName, DecodeName, HasAt;
      DecodeEncodedName(msg, off + 1 + |labels[0]|, labels[1..], limit);
      assert [labels[0]] + labels[1..] == labels;
    }
  }

  lemma DecodeStep(msg: Bytes, off: nat, part: Label, limit: nat)
    requires off < |msg| && msg[off] == |part| && 0 < |part| < 64 && HasAt(msg, off + 1, part)
    ensures DecodeName(msg, off, limit)
            == match DecodeName(msg, off + 1 + |part|, limit)
               case None => None
               case Some(n) => Some(Name([part] + n.labels, n.next))
  {
  }

  /** A query: header with one question, the question, and whatever comes behind it. */
  function Query(id: Bytes, flags: Bytes, counts: Bytes, labels: seq<Label>, typeAndClass: Bytes, extra: Bytes): (r: Bytes)
    requires |id| == 2 && |flags| == 2 && |counts| == 6 && ValidLabels(labels, 255)
    ensures |r| >= HEADER
  {
    id + flags + [0, 1] + counts + (EncodeName(labels) + typeAndClass + extra)
  }

  function Expected(id: Bytes, labels: seq<Label>, typeAndClass: Bytes, ip: Ip): Message
    requires |id| == 2 && |typeAndClass| == 4
  {
    Message(U16(id, 0), 0x8180, [Question(labels, U16(typeAndClass, 0), U16(typeAndClass, 2))],
            [Record(labels, 1, 1, 60, ip)])
  }

  /** How the response is laid out. */
  ghost predicate Layout(msg: Bytes, id: Bytes, labels: seq<Label>, typeAndClass: Bytes, extra: Bytes, ip: Ip)
    requires |id| == 2 && |typeAndClass| == 4 && ValidLabels(labels, 255)
  {
    var q := HEADER + |EncodeName(labels)|;
    && |msg| == q + 4 + |extra| + 16
    && HasAt(msg, 0, id + [0x81, 0x80, 0, 1, 0, 1, 0, 0, 0, 0])
    && HasAt(msg, HEADER, EncodeName(labels))
    && HasAt(msg, q, typeAndClass)
    && HasAt(msg, q + 4 + |extra|, ANSWER_HEAD)
    && HasAt(msg, q + 4 + |extra| + 12, ip)
  }

  lemma ResponseLayout(id: Bytes, flags: Bytes, counts: Bytes, labels: seq<Label>, typeAndClass: Bytes,
                       extra: Bytes, domain: Bytes, ip: Ip)
    requires |id| == 2 && |flags| == 2 && |counts| == 6 && |typeAndClass| == 4 && ValidLabels(labels, 255)
    requires domain != []
    ensures var data := Query(id, flags, counts, labels, typeAndClass, extra);
      Layout(DnsResponse(data, domain, ip), id, labels, typeAndClass, extra, ip)
  {
    var name := EncodeName(labels);
    var tail := name + typeAndClass + extra;
    var data := Query(id, flags, counts, labels, typeAndClass, extra);
    HeaderFields(id, flags, counts, tail);
    var msg := DnsResponse(data, domain, ip);
    var head := id + [0x81, 0x80, 0, 1, 0, 1, 0, 0, 0, 0];
    ResponseParts(data, id, tail, domain, ip);
    hide EncodeName, DnsResponse, Query;
    assert HasAt(msg, 0, msg);
    HasParts(msg, 0, head, tail + (ANSWER_HEAD + ip));
    HasParts(msg, HEADER, tail, ANSWER_HEAD + ip);
    HasParts(msg, HEADER, name + typeAndClass, extra);
    HasParts(msg, HEADER, name, typeAndClass);
    HasParts(msg, HEADER + |tail|, ANSWER_HEAD, ip);
  }

  lemma ResponseParts(data: Bytes, id: Bytes, tail: Bytes, domain: Bytes, ip: Ip)
    requires |data| >= HEADER && |id| == 2 && domain != []
    requires data[..2] == id && data[4..6] == [0, 1] && data[HEADER..] == tail
    ensures DnsResponse(data, domain, ip)
            == id + [0x81, 0x80, 0, 1, 0, 1, 0, 0, 0, 0] + (tail + (ANSWER_HEAD + ip))
  {
  }

  lemma HeaderFields(id: Bytes, flags: Bytes, counts: Bytes, tail: Bytes)
    requires |id| == 2 && |flags| == 2 && |counts| == 6
    ensures var data := id + flags + [0, 1] + counts + tail;
      data[..2] == id && data[4..6] == [0, 1] && data[HEADER..] == tail
  {
  }

  lemma ReadU16(msg: Bytes, off: nat, part: Bytes, i: nat)
    requires HasAt(msg, off, part) && i + 2 <= |part|
    ensures U16(msg, off + i) == U16(part, i)
  {
    assert msg[off + i] == msg[off..off + |part|][i] && msg[off + i + 1] == msg[off..off + |part|][i + 1];
  }

  lemma OneQuestion(msg: Bytes, off: nat)
    ensures DecodeQuestions(msg, off, 1)
            == match DecodeQuestion(msg, off) case None => None case Some(q) => Some(([q.0], q.1))
  {
    if DecodeQuestion(msg, off).Some? {
      var (q, end) := DecodeQuestion(msg, off).value;
      assert [q] + [] == [q];
      assert DecodeQuestions(msg, end, 0) == Some(([], end));
    }
  }

  lemma OneRecord(msg: Bytes, off: nat)
    ensures DecodeRecords(msg, off, 1)
            == match DecodeRecord(msg, off) case None => None case Some(r) => Some(([r.0], r.1))
  {
    if DecodeRecord(msg, off).Some? {
      var (r, end) := DecodeRecord(msg, off).value;
      assert [r] + [] == [r];
      assert DecodeRecords(msg, end, 0) == Some(([], end));
    }
  }

  /** Header and question of the response, whatever follows the question in the query. */
  lemma DecodesQuestion(msg: Bytes, id: Bytes, labels: seq<Label>, typeAndClass: Bytes, extra: Bytes, ip: Ip)
    requires |id| == 2 && |typeAndClass| == 4 && ValidLabels(labels, 63) && ValidLabels(labels, 255)
    requires Layout(msg, id, labels, typeAndClass, extra, ip)
    ensures U16(msg, 0) == U16(id, 0) && U16(msg, 2) == 0x8180 && U16(msg, 4) == 1 && U16(msg, 6) == 1
    ensures U16(msg, 8) == 0 && U16(msg, 10) == 0
    ensures DecodeQuestions(msg, HEADER, 1)
            == Some(([Question(labels, U16(typeAndClass, 0), U16(typeAndClass, 2))],
                     HEADER + |EncodeName(labels)| + 4))
  {
    var q := HEADER + |EncodeName(labels)|;
    DecodesHeader(msg, id);
    DecodeEncodedName(msg, HEADER, labels, HEADER);
    ReadU16(msg, q, typeAndClass, 0);
    ReadU16(msg, q, typeAndClass, 2);
    hide HasAt, EncodeName, DecodeName;
    OneQuestion(msg, HEADER);
  }

  lemma DecodesHeader(msg: Bytes, id: Bytes)
    requires |id| == 2 && HasAt(msg, 0, id + [0x81, 0x80, 0, 1, 0, 1, 0, 0, 0, 0])
    ensures U16(msg, 0) == U16(id, 0) && U16(msg, 2) == 0x8180 && U16(msg, 4) == 1 && U16(msg, 6) == 1
    ensures U16(msg, 8) == 0 && U16(msg, 10) == 0
  {
    var counts: Bytes := [0x81, 0x80, 0, 1, 0, 1, 0, 0, 0, 0];
    HasParts(msg, 0, id, counts);
    ReadU16(msg, 0, id, 0);
    ReadU16(msg, 2, counts, 0);
    ReadU16(msg, 2, counts, 2);
    ReadU16(msg, 2, counts, 4);
    ReadU16(msg, 2, counts, 6);
    ReadU16(msg, 2, counts, 8);
  }

  /** Where the name of a record ends in the pointer of the answer, it is either just that pointer, or
      longer than the name pointed to. */
  lemma {:induction false} NameIntoPointer(msg: Bytes, off: nat, limit: nat, p: nat)
    requires off <= p && p + 2 <= |msg| && msg[p] == 0xc0 && msg[p + 1] == 0x0c
    requires var n := DecodeName(msg, off, limit); n.Some? && n.value.next == p + 2
    ensures DecodeName(msg, HEADER, HEADER).Some?
    ensures var labels := DecodeName(msg, off, limit).value.labels;
      var pointed := DecodeName(msg, HEADER, HEADER).value.labels;
      if off == p then labels == pointed else |labels| > |pointed|
    decreases |msg| - off
  {
    if off < p && 0 < msg[off] < 64 {
      var next := off + 1 + msg[off];
      NextBeyond(msg, next, limit);
      NameIntoPointer(msg, next, limit, p);
    }
  }

  lemma NextBeyond(msg: Bytes, off: nat, limit: nat)
    requires off < |msg| && DecodeName(msg, off, limit).Some?
    ensures DecodeName(msg, off, limit).value.next > off
    ensures 0 < msg[off] < 64 ==> DecodeName(msg, off, limit).value.next > off + 1 + msg[off]
    decreases |msg| - off
  {
    if 0 < msg[off] < 64 {
      NextBeyond(msg, off + 1 + msg[off], limit);
    }
  }

  /** For every standard query with one question and a non-root name: the response decodes to the same
      id and question and one A record, whose pointer resolves to the question name, with the address
      as its data, if and only if nothing follows the question. A trailing record, such as an EDNS
      option, is taken for part of the answer. */
  lemma ResponseDecodes(id: Bytes, flags: Bytes, counts: Bytes, labels: seq<Label>, typeAndClass: Bytes,
                        extra: Bytes, lookup: Bytes -> Option<Ip>)
    requires |id| == 2 && |flags| == 2 && |counts| == 6 && |typeAndClass| == 4
    requires labels != [] && ValidLabels(labels, 63) && ValidLabels(labels, 255)
    requires flags[0] / 8 % 16 == 0 && lookup(Dotted(labels)).Some?
    ensures var ip := lookup(Dotted(labels)).value;
      var reply := Handle(Query(id, flags, counts, labels, typeAndClass, extra), lookup);
      && reply.Packet?
      && (DecodeMessage(reply.bytes) == Some(Expected(id, labels, typeAndClass, ip)) <==> extra == [])
  {
    hide DecodeMessage, DnsResponse, Handle, Query, Layout, EncodeName, Dotted, Expected;
    var ip := lookup(Dotted(labels)).value;
    var data := Query(id, flags, counts, labels, typeAndClass, extra);
    QueryIsHandled(id, flags, counts, labels, typeAndClass, extra, lookup);
    ResponseLayout(id, flags, counts, labels, typeAndClass, extra, Dotted(labels), ip);
    LayoutDecodes(DnsResponse(data, Dotted(labels), ip), id, labels, typeAndClass, extra, ip);
  }

  const WWW: seq<Label> := [[119, 119, 119]]
  const A_IN: Bytes := [0, 1, 0, 1]
  /** An OPT record without options: root name, type 41, 4096 bytes of payload. */
  const OPT: Bytes := [0, 0, 41, 0x10, 0, 0, 0, 0, 0, 0, 0]

  /** The reply to a query for `www` decodes; with an EDNS record behind the question it does not. */
  lemma EdnsReplyDoesNotDecode(id: Bytes, flags: Bytes, counts: Bytes, lookup: Bytes -> Option<Ip>)
    requires |id| == 2 && |flags| == 2 && |counts| == 6 && flags[0] / 8 % 16 == 0
    requires lookup(Dotted(WWW)).Some?
    ensures ValidLabels(WWW, 63) && ValidLabels(WWW, 255)
    ensures var expected := Some(Expected(id, WWW, A_IN, lookup(Dotted(WWW)).value));
      var plain := Handle(Query(id, flags, counts, WWW, A_IN, []), lookup);
      var edns := Handle(Query(id, flags, counts, WWW, A_IN, OPT), lookup);
      && plain.Packet? && DecodeMessage(plain.bytes) == expected
      && edns.Packet? && DecodeMessage(edns.bytes) != expected
  {
    OneLabel(WWW);
    hide Handle, Query, DecodeMessage, Expected, Dotted;
    ResponseDecodes(id, flags, counts, WWW, A_IN, [], lookup);
    ResponseDecodes(id, flags, counts, WWW, A_IN, OPT, lookup);
  }

  lemma OneLabel(labels: seq<Label>)
    requires |labels| == 1 && 1 <= |labels[0]| <= 63
    ensures ValidLabels(labels, 63) && ValidLabels(labels, 255)
  {
    assert labels[1..] == [];
  }

  lemma LayoutDecodes(msg: Bytes, id: Bytes, labels: seq<Label>, typeAndClass: Bytes, extra: Bytes, ip: Ip)
    requires |id| == 2 && |typeAndClass| == 4 && ValidLabels(labels, 63) && ValidLabels(labels, 255)
    requires Layout(msg, id, labels, typeAndClass, extra, ip)
    ensures DecodeMessage(msg) == Some(Expected(id, labels, typeAndClass, ip)) <==> extra == []
  {
    hide DecodeQuestions, DecodeRecords, DecodeRecord, EncodeName;
    DecodesQuestion(msg, id, labels, typeAndClass, extra, ip);
    AnswerDecodes(msg, id, labels, typeAndClass, extra, ip);
    OneRecord(msg, HEADER + |EncodeName(labels)| + 4);
  }

  lemma QueryIsHandled(id: Bytes, flags: Bytes, counts: Bytes, labels: seq<Label>, typeAndClass: Bytes,
                       extra: Bytes, lookup: Bytes -> Option<Ip>)
    requires |id| == 2 && |flags| == 2 && |counts| == 6 && |typeAndClass| == 4
    requires labels != [] && ValidLabels(labels, 255)
    requires flags[0] / 8 % 16 == 0 && lookup(Dotted(labels)).Some?
    ensures var data := Query(id, flags, counts, labels, typeAndClass, extra);
      && Dotted(labels) != []
      && Handle(data, lookup) == Packet(DnsResponse(data, Dotted(labels), lookup(Dotted(labels)).value))
  {
    var data := Query(id, flags, counts, labels, typeAndClass, extra);
    var name, tail := EncodeName(labels), typeAndClass + extra;
    QueryWire(id + flags + [0, 1] + counts, name + typeAndClass + extra, flags[0]);
    hide EncodeName;
    assert name + typeAndClass + extra == name + tail;
    assert HasAt(name + tail, 0, name + tail);
    HasParts(name + tail, 0, name, tail);
    DomainOfName(name + tail, 0, labels);
  }

  lemma QueryWire(head: Bytes, tail: Bytes, flag: Byte)
    requires |head| == HEADER && head[2] == flag
    ensures (head + tail)[2] == flag && Slice(head + tail, HEADER, HEADER + |head + tail|) == tail
  {
  }

  /** The fixed part of the answer, at the end of the response. */
  lemma AnswerFields(msg: Bytes, p: nat)
    requires HasAt(msg, p, ANSWER_HEAD)
    ensures msg[p] == 0xc0 && msg[p + 1] == 0x0c && U16(msg, p) == 0xc00c
    ensures U16(msg, p + 2) == 1 && U16(msg, p + 4) == 1 && U16(msg, p + 6) == 0 && U16(msg, p + 8) == 60
    ensures U16(msg, p + 10) == 4
  {
    ReadU16(msg, p, ANSWER_HEAD, 0);
    ReadU16(msg, p, ANSWER_HEAD, 2);
    ReadU16(msg, p, ANSWER_HEAD, 4);
    ReadU16(msg, p, ANSWER_HEAD, 6);
    ReadU16(msg, p, ANSWER_HEAD, 8);
    ReadU16(msg, p, ANSWER_HEAD, 10);
  }

  lemma AnswerDecodes(msg: Bytes, id: Bytes, labels: seq<Label>, typeAndClass: Bytes, extra: Bytes, ip: Ip)
    requires |id| == 2 && |typeAndClass| == 4 && ValidLabels(labels, 63) && ValidLabels(labels, 255)
    requires Layout(msg, id, labels, typeAndClass, extra, ip)
    ensures DecodeRecord(msg, HEADER + |EncodeName(labels)| + 4) == Some((Record(labels, 1, 1, 60, ip), |msg|))
            <==> extra == []
  {
    var e := HEADER + |EncodeName(labels)| + 4;
    var p := e + |extra|;
    DecodeEncodedName(msg, HEADER, labels, HEADER);
    AnswerFields(msg, p);
    if extra == [] {
      PointerToName(msg, e, labels);
      assert U16(msg, e + 2 + 8) == 4 && |msg| == e + 16;
    } else {
      var n := DecodeName(msg, e, e);
      if n.Some? && n.value.next == p + 2 {
        NameIntoPointer(msg, e, e, p);
      }
    }
  }

  lemma PointerToName(msg: Bytes, e: nat, labels: seq<Label>)
    requires HEADER < e && e + 2 <= |msg| && msg[e] == 0xc0 && msg[e + 1] == 0x0c
    requires DecodeName(msg, HEADER, HEADER).Some? && DecodeName(msg, HEADER, HEADER).value.labels == labels
    ensures DecodeName(msg, e, e) == Some(Name(labels, e + 2))
  {
  }
}
