/** Reading a DNS reply (UIPEthernet, Dns.cpp, ProcessResponse), against the encoding of RFC 1035, section 4.1. */
module DnsReply {
  import opened Arithmetic
  import opened Dns
  import opened MachineInts

  // ----- replies and their bytes

  /** A name in an answer ends with a zero length or with a compression pointer (section 4.1.4). */
  datatype NameEnd = Root | Pointer(hi: UInt8, lo: UInt8)

  datatype Question = Question(labels: seq<Bytes>, kindAndClass: Bytes)

  datatype Answer = Answer(labels: seq<Bytes>, end: NameEnd, kind: UInt16, class_: UInt16, ttl: Bytes, data: Bytes)

  /** `counts` are the NSCOUNT and ARCOUNT bytes, `others` the records after the answers. */
  datatype Reply = Reply(id: (UInt8, UInt8), flags: UInt16, counts: Bytes,
                         questions: seq<Question>, answers: seq<Answer>, others: Bytes)

  const TYPE_A: UInt16 := 1
  const CLASS_IN: UInt16 := 1

  function Word(n: UInt16): Bytes { [n / 256, n % 256] }

  function Big(hi: UInt8, lo: UInt8): UInt16 { hi * 256 + lo }

  predicate GoodQuestion(q: Question) {
    ShortLabels(q.labels) && |q.kindAndClass| == 4
  }

  predicate GoodAnswer(a: Answer) {
    ShortLabels(a.labels) && (a.end.Pointer? ==> a.end.hi >= 192) && |a.ttl| == 4 && |a.data| < 65536
  }

  predicate GoodAnswers(answers: seq<Answer>) {
    forall i :: 0 <= i < |answers| ==> GoodAnswer(answers[i])
  }

  predicate GoodQuestions(questions: seq<Question>) {
    forall i :: 0 <= i < |questions| ==> GoodQuestion(questions[i])
  }

  predicate WellFormed(r: Reply) {
    && |r.counts| == 4 && |r.questions| < 65536 && |r.answers| < 65536
    && GoodQuestions(r.questions) && GoodAnswers(r.answers)
  }

  function EncodeEnd(end: NameEnd): Bytes {
    match end
    case Root => [0]
    case Pointer(hi, lo) => [hi, lo]
  }

  function EncodeQuestions(questions: seq<Question>): Bytes {
    if questions == [] then []
    else EncodeName(questions[0].labels) + questions[0].kindAndClass + EncodeQuestions(questions[1..])
  }

  function EncodeFixed(a: Answer): Bytes
    requires |a.data| < 65536
  {
    Word(a.kind) + Word(a.class_) + a.ttl + Word(|a.data|)
  }

  function EncodeAnswers(answers: seq<Answer>): Bytes
    requires GoodAnswers(answers)
  {
    if answers == [] then []
    else
      var a := answers[0];
      EncodeLabels(a.labels) + EncodeEnd(a.end) + EncodeFixed(a) + a.data + EncodeAnswers(answers[1..])
  }

  function Header(r: Reply): Bytes
    requires WellFormed(r)
  {
    [r.id.0, r.id.1] + Word(r.flags) + Word(|r.questions|) + Word(|r.answers|) + r.counts
  }

  function Encode(r: Reply): Bytes
    requires WellFormed(r)
  {
    Header(r) + EncodeQuestions(r.questions) + EncodeAnswers(r.answers) + r.others
  }

  /** A type A record of class IN. */
  predicate Wanted(a: Answer) {
    a.kind == TYPE_A && a.class_ == CLASS_IN
  }

  predicate FirstWanted(answers: seq<Answer>, i: nat) {
    i < |answers| && Wanted(answers[i]) && forall j :: 0 <= j < i ==> !Wanted(answers[j])
  }

  /** A query after its header is one encoded question, so a server that echoes it has its question skipped
      to the byte. */
  lemma QueryIsQuestion(name: Bytes, id: (UInt8, UInt8))
    ensures var query, q := RequestHeader(id) + EncodeName(Parts(name)) + [0, 1, 0, 1],
                            Question(Parts(name), [0, 1, 0, 1]);
            query[12..] == EncodeQuestions([q])
            && (GoodQuestions([q]) <==> forall i :: 0 <= i < |Parts(name)| ==> |Parts(name)[i]| <= 63)
  {
    hide EncodeName, Parts;
    var q := Question(Parts(name), [0, 1, 0, 1]);
    assert [q][1..] == [] && EncodeQuestions([q]) == EncodeName(Parts(name)) + [0, 1, 0, 1] + EncodeQuestions([]);
    assert RequestHeader(id) + EncodeName(Parts(name)) + [0, 1, 0, 1]
        == RequestHeader(id) + (EncodeName(Parts(name)) + [0, 1, 0, 1]);
    forall i | 0 <= i < |Parts(name)| ensures Parts(name)[i] != [] {
      PartsAreParts(name, i);
    }
    assert GoodQuestions([q]) <==> GoodQuestion([q][0]);
  }

  // ----- the datagram being read

  class Datagram {
    const bytes: Bytes
    var next: nat

    ghost predicate Valid()
      reads this
    {
      next <= |bytes|
    }

    ghost function Rest(): Bytes
      requires Valid()
      reads this
    {
      bytes[next..]
    }

    constructor (bytes: Bytes)
      ensures Valid() && this.bytes == bytes && Rest() == bytes && next == 0
    {
      this.bytes := bytes;
      next := 0;
    }

    method Read() returns (b: UInt8)
      requires Valid() && Rest() != []
      modifies this`next
      ensures Valid() && b == old(Rest())[0] && Rest() == old(Rest())[1..]
    {
      b := bytes[next];
      next := next + 1;
    }

    method ReadBytes(n: nat) returns (s: Bytes)
      requires Valid() && n <= |Rest()|
      modifies this`next
      ensures Valid() && s == old(Rest())[..n] && Rest() == old(Rest())[n..]
    {
      s := bytes[next..next + n];
      next := next + n;
    }

    /** Reading n bytes one by one and ignoring them. */
    method Discard(n: nat)
      requires Valid() && n <= |Rest()|
      modifies this`next
      ensures Valid() && Rest() == old(Rest())[n..]
    {
      for i := 0 to n
        modifies this`next
        invariant next == old(next) + i
      {
        var _ := Read();
      }
    }

    method Flush()
      requires Valid()
      modifies this`next
      ensures Valid() && Rest() == []
    {
      next := |bytes|;
    }

    method ReadWord() returns (w: UInt16)
      requires Valid() && |Rest()| >= 2
      modifies this`next
      ensures Valid() && w == Big(old(Rest())[0], old(Rest())[1]) && Rest() == old(Rest())[2..]
    {
      var hi := Read();
      var lo := Read();
      w := Big(hi, lo);
    }

    /** Skipping the name of a question: exactly its bytes are read. Lengths up to 255 are taken as lengths. */
    method SkipQuestionName(ghost labels: seq<Bytes>, ghost rest: Bytes)
      requires Valid() && Rest() == EncodeName(labels) + rest
      requires forall i :: 0 <= i < |labels| ==> 1 <= |labels[i]| <= 255
      modifies this`next
      ensures Valid() && Rest() == rest
    {
      hide *;
      ghost var left := labels;
      var len: UInt8 := 1;
      while len != 0
        modifies this`next
        invariant Valid()
        invariant Rest() == if len != 0 then EncodeName(left) + rest else rest
        invariant forall i :: 0 <= i < |left| ==> 1 <= |left[i]| <= 255
        decreases |left|, len
      {
        NameAhead(Rest(), left, rest);
        len := Read();
        if len > 0 {
          Discard(len);
          len := 255; // where the last test of `len--` leaves the byte
          left := left[1..];
        }
      }
    }

    /** Skipping the name of an answer, which ends with a zero length or a compression pointer. */
    method SkipAnswerName(ghost labels: seq<Bytes>, ghost end: NameEnd, ghost rest: Bytes)
      requires Valid() && Rest() == EncodeLabels(labels) + (EncodeEnd(end) + rest)
      requires ShortLabels(labels) && (end.Pointer? ==> end.hi >= 64)
      modifies this`next
      ensures Valid() && Rest() == rest
    {
      hide *;
      ghost var left := labels;
      var len: UInt8 := 1;
      while len != 0
        modifies this`next
        invariant Valid()
        invariant Rest() == if len != 0 then EncodeLabels(left) + (EncodeEnd(end) + rest) else rest
        invariant ShortLabels(left)
        decreases |left|, len
      {
        LabelsAhead(Rest(), left, end, rest);
        len := Read();
        if len < 64 { // no bit of 0xC0 is set
          if len > 0 {
            Discard(len);
            len := 255; // where the last test of `len--` leaves the byte
            left := left[1..];
          }
        } else {
          var _ := Read();
          len := 0;
        }
      }
    }

    /** Skipping the questions: names, types and classes. */
    method SkipQuestions(ghost questions: seq<Question>, count: UInt16, ghost rest: Bytes)
      requires Valid() && Rest() == EncodeQuestions(questions) + rest
      requires GoodQuestions(questions) && count == |questions|
      modifies this`next
      ensures Valid() && Rest() == rest
    {
      hide *;
      assert questions[0..] == questions;
      for i := 0 to count
        modifies this`next
        invariant Valid() && Rest() == EncodeQuestions(questions[i..]) + rest
      {
        ghost var q, tail := questions[i], EncodeQuestions(questions[i + 1..]) + rest;
        QuestionAhead(Rest(), questions, i, rest);
        SkipQuestionName(q.labels, q.kindAndClass + tail);
        FrontAndBack(q.kindAndClass, tail);
        Discard(4);
      }
      NoQuestions(questions[count..]);
      assert [] + rest == rest;
    }

    /** Reading answers up to the first wanted one. None: no answer is wanted. */
    method FindAddress(ghost answers: seq<Answer>, count: UInt16, ghost others: Bytes)
      returns (found: bool, size: UInt16, ghost at: nat)
      requires GoodAnswers(answers) && count == |answers|
      requires Valid() && Rest() == EncodeAnswers(answers) + others
      modifies this`next
      ensures Valid()
      ensures !found ==> (forall i :: 0 <= i < |answers| ==> !Wanted(answers[i])) && Rest() == others
      ensures found ==> at < |answers| && FirstWanted(answers, at) && size == |answers[at].data| && answers[at].data <= Rest()
    {
      hide *;
      assert answers[0..] == answers;
      found, size, at := false, 0, 0;
      for i := 0 to count
        modifies this`next
        invariant Valid() && GoodAnswers(answers[i..]) && Rest() == EncodeAnswers(answers[i..]) + others
        invariant forall j :: 0 <= j < i ==> !Wanted(answers[j])
      {
        ghost var a, tail := answers[i], Behind(answers, i, others);
        AnswerAhead(Rest(), answers, i, others);
        SkipAnswerName(a.labels, a.end, EncodeFixed(a) + (a.data + tail));
        FixedAhead(Rest(), a, a.data + tail);
        var kind := ReadWord();
        var class_ := ReadWord();
        Discard(4);
        size := ReadWord();
        if kind == TYPE_A && class_ == CLASS_IN {
          WantedIs(answers, i);
          found, at := true, i;
          return;
        }
        NotWanted(a);
        FrontAndBack(a.data, tail);
        Discard(size);
      }
      NoAnswers(answers[count..]);
      assert [] + others == others;
    }
  }

  ghost function Behind(answers: seq<Answer>, i: nat, others: Bytes): Bytes
    requires i < |answers| && GoodAnswers(answers[i..])
  {
    GoodTail(answers, i);
    EncodeAnswers(answers[i + 1..]) + others
  }

  lemma GoodTail(answers: seq<Answer>, i: nat)
    requires i < |answers| && GoodAnswers(answers[i..])
    ensures GoodAnswers(answers[i + 1..])
  {
    hide GoodAnswer;
    var next := answers[i + 1..];
    forall j | 0 <= j < |next| ensures GoodAnswer(next[j]) {
      assert next[j] == answers[i..][j + 1];
    }
  }

  lemma FrontAndBack(a: Bytes, b: Bytes)
    ensures |a| <= |a + b| && (a + b)[|a|..] == b && a <= a + b
  {}

  lemma NoQuestions(questions: seq<Question>)
    requires questions == []
    ensures EncodeQuestions(questions) == []
  {}

  lemma NoAnswers(answers: seq<Answer>)
    requires GoodAnswers(answers) && answers == []
    ensures EncodeAnswers(answers) == []
  {}

  lemma WantedIs(answers: seq<Answer>, i: nat)
    requires i < |answers| && answers[i].kind == TYPE_A && answers[i].class_ == CLASS_IN
    requires forall j :: 0 <= j < i ==> !Wanted(answers[j])
    ensures FirstWanted(answers, i)
  {}

  lemma NotWanted(a: Answer)
    requires a.kind != TYPE_A || a.class_ != CLASS_IN
    ensures !Wanted(a)
  {}

  lemma QuestionAhead(ahead: Bytes, questions: seq<Question>, i: nat, rest: Bytes)
    requires i < |questions| && GoodQuestions(questions)
    requires ahead == EncodeQuestions(questions[i..]) + rest
    ensures |questions[i].kindAndClass| == 4
    ensures forall k :: 0 <= k < |questions[i].labels| ==> 1 <= |questions[i].labels[k]| <= 255
    ensures ahead
         == EncodeName(questions[i].labels) + (questions[i].kindAndClass + (EncodeQuestions(questions[i + 1..]) + rest))
  {
    hide EncodeName;
    assert questions[i..][1..] == questions[i + 1..];
    assert GoodQuestion(questions[i]);
  }

  lemma AnswerAhead(ahead: Bytes, answers: seq<Answer>, i: nat, others: Bytes)
    requires i < |answers| && GoodAnswers(answers[i..])
    requires ahead == EncodeAnswers(answers[i..]) + others
    ensures GoodAnswer(answers[i]) && ShortLabels(answers[i].labels) && |answers[i].data| < 65536
    ensures answers[i].end.Pointer? ==> answers[i].end.hi >= 64
    ensures GoodAnswers(answers[i + 1..]) && Behind(answers, i, others) == EncodeAnswers(answers[i + 1..]) + others
    ensures var a := answers[i];
      ahead == EncodeLabels(a.labels)
             + (EncodeEnd(a.end) + (EncodeFixed(a) + (a.data + Behind(answers, i, others))))
  {
    hide EncodeLabels, EncodeEnd, EncodeFixed, ShortLabels;
    assert answers[i..][1..] == answers[i + 1..];
    assert GoodAnswer(answers[i..][0]);
  }

  lemma FixedAhead(ahead: Bytes, a: Answer, rest: Bytes)
    requires GoodAnswer(a) && |a.data| < 65536 && ahead == EncodeFixed(a) + rest
    ensures |ahead| >= 10 && Big(ahead[0], ahead[1]) == a.kind && Big(ahead[2..][0], ahead[2..][1]) == a.class_
    ensures Big(ahead[2..][2..][4..][0], ahead[2..][2..][4..][1]) == |a.data|
    ensures ahead[2..][2..][4..][2..] == rest
  {}

  lemma LabelsAhead(ahead: Bytes, labels: seq<Bytes>, end: NameEnd, rest: Bytes)
    requires ahead == EncodeLabels(labels) + (EncodeEnd(end) + rest)
    requires ShortLabels(labels) && (end.Pointer? ==> end.hi >= 64)
    ensures ahead != []
    ensures labels == [] && end.Root? ==> ahead[0] == 0 && ahead[1..] == rest
    ensures labels == [] && end.Pointer? ==> ahead[0] >= 64 && |ahead| >= 2 && ahead[1..][1..] == rest
    ensures labels != [] ==> 0 < ahead[0] < 64 && ahead[0] <= |ahead[1..]| && ShortLabels(labels[1..])
    ensures labels != [] ==>
      ahead[1..][ahead[0]..] == EncodeLabels(labels[1..]) + (EncodeEnd(end) + rest)
  {
    hide ShortLabels;
    if labels == [] {
      assert ahead == EncodeEnd(end) + rest;
    } else {
      ShortLabelsStep(labels);
      var tail := EncodeLabels(labels[1..]) + (EncodeEnd(end) + rest);
      assert ahead == EncodeLabel(labels[0]) + tail;
    }
  }

  // ----- ProcessResponse

  /** The packet carries the request's id, and its reply bit is set. */
  predicate Ours(packet: Bytes, id: (UInt8, UInt8))
    requires |packet| >= 12
  {
    packet[0] == id.0 && packet[1] == id.1 && packet[2] >= 0x80
  }

  /** The truncation bit or an error code is set. The other bits of the flags do not matter. */
  predicate Failed(packet: Bytes)
    requires |packet| >= 12
  {
    packet[2] / 2 % 2 == 1 || packet[3] % 16 != 0
  }

  predicate Answered(packet: Bytes)
    requires |packet| >= 12
  {
    packet[6] > 0 || packet[7] > 0
  }

  /** The packet is long enough, answers the request, reports no error and holds an answer. */
  predicate Accepted(packet: Bytes, id: (UInt8, UInt8)) {
    |packet| >= 12 && Ours(packet, id) && !Failed(packet) && Answered(packet)
  }

  /** Which packets are refused before their records are looked at, and why. */
  predicate Verdict(packet: Bytes, id: (UInt8, UInt8), code: int) {
    if |packet| < 12 then code == -3
    else
      && (code == -4 <==> !Ours(packet, id))
      && (code == -5 <==> Ours(packet, id) && Failed(packet))
      && (code == -6 <==> Ours(packet, id) && !Failed(packet) && !Answered(packet))
      && (code in {1, -9, -10} <==> Accepted(packet, id))
  }

  /** The flags as a 16-bit value, and its bits in the two bytes. */
  lemma FlagBits(hi: UInt8, lo: UInt8)
    ensures Big(hi, lo) / 0x8000 % 2 == 1 <==> hi >= 0x80
    ensures Big(hi, lo) / 0x200 % 2 == hi / 2 % 2 && Big(hi, lo) % 16 == lo % 16
  {
    HighBits(hi, lo, 0x80);
    HighBits(hi, lo, 2);
    assert hi / 0x80 == if hi >= 0x80 then 1 else 0;
    LowBits(hi, lo);
  }

  /** Bits of the high byte are 256 times as high in the word. */
  lemma HighBits(hi: UInt8, lo: UInt8, d: nat)
    requires d > 0
    ensures 256 * d > 0 && Big(hi, lo) / (256 * d) == hi / d
  {
    DivisionRest(hi, d);
    var q := hi / d;
    assert q * (256 * d) == 256 * (q * d);
    QuotientIs(hi * 256 + lo, 256 * d, q);
  }

  lemma LowBits(hi: UInt8, lo: UInt8)
    ensures Big(hi, lo) % 16 == lo % 16
  {
    var q := hi * 16 + lo / 16;
    QuotientIs(hi * 256 + lo, 16, q);
  }

  /** What looking through the answers has to give: the data of the first wanted one when it is 4 bytes long. */
  ghost predicate Looked(answers: seq<Answer>, code: int, address: Option<Bytes>) {
    && (code == -10 <==> forall i :: 0 <= i < |answers| ==> !Wanted(answers[i]))
    && (forall i: nat :: FirstWanted(answers, i) ==>
          if |answers[i].data| == 4 then code == 1 && address == Some(answers[i].data) else code == -9)
  }

  lemma LookedAt(answers: seq<Answer>, at: nat, code: int, address: Option<Bytes>)
    requires FirstWanted(answers, at)
    requires if |answers[at].data| == 4 then code == 1 && address == Some(answers[at].data) else code == -9
    ensures Looked(answers, code, address)
  {
    hide Wanted;
    forall i: nat | FirstWanted(answers, i) ensures i == at {
      OnlyOneFirst(answers, i, at);
    }
  }

  lemma OnlyOneFirst(answers: seq<Answer>, i: nat, j: nat)
    requires FirstWanted(answers, i) && FirstWanted(answers, j)
    ensures i == j
  {
    hide Wanted;
  }

  lemma PrefixIs(a: Bytes, b: Bytes)
    requires a <= b
    ensures b[..|a|] == a
  {}

  lemma LookedInVain(answers: seq<Answer>)
    requires forall i :: 0 <= i < |answers| ==> !Wanted(answers[i])
    ensures Looked(answers, -10, None)
  {}

  /** Waiting for and reading the reply to request `id`. `address` is None where the caller's address is left alone.
      An accepted packet has to be a well-formed reply r; any other packet may hold anything. */
  method ProcessResponse(d: Datagram, timedOut: bool, fromServer: bool, id: (UInt8, UInt8), ghost r: Reply)
    returns (code: int, address: Option<Bytes>)
    requires d.Valid() && d.next == 0
    requires Accepted(d.bytes, id) ==> WellFormed(r) && d.bytes == Encode(r)
    modifies d`next
    ensures d.Valid()
    ensures code == -1 <==> timedOut
    ensures code == -2 <==> !timedOut && !fromServer
    ensures !timedOut && fromServer ==> Verdict(d.bytes, id, code)
    ensures code <= -4 ==> d.Rest() == []
    ensures !timedOut && fromServer && Accepted(d.bytes, id) ==> Looked(r.answers, code, address)
    ensures code != 1 ==> address == None
  {
    hide Looked, FirstWanted, Wanted, WellFormed, GoodAnswers, GoodQuestions;
    hide Encode, Header, EncodeQuestions, EncodeAnswers;
    address := None;
    if timedOut {
      return -1, address;
    }
    if !fromServer {
      return -2, address;
    }
    assert d.Rest() == d.bytes;
    if |d.bytes| - d.next < 12 {
      return -3, address;
    }
    var header := d.ReadBytes(12);
    var flags := Big(header[2], header[3]);
    FlagBits(header[2], header[3]);
    if id != (header[0], header[1]) || flags / 0x8000 % 2 != 1 {
      d.Flush();
      return -4, address;
    }
    if flags / 0x200 % 2 == 1 || flags % 16 != 0 {
      d.Flush();
      return -5, address;
    }
    var answerCount := Big(header[6], header[7]);
    if answerCount == 0 {
      d.Flush();
      return -6, address;
    }
    HeaderAhead(d.bytes, r);
    d.SkipQuestions(r.questions, Big(header[4], header[5]), EncodeAnswers(r.answers) + r.others);
    var found, size, at := d.FindAddress(r.answers, answerCount, r.others);
    if found {
      if size != 4 {
        d.Flush();
        LookedAt(r.answers, at, -9, None);
        return -9, address;
      }
      PrefixIs(r.answers[at].data, d.Rest());
      var bytes := d.ReadBytes(4);
      LookedAt(r.answers, at, 1, Some(bytes));
      return 1, Some(bytes);
    }
    d.Flush();
    LookedInVain(r.answers);
    return -10, address;
  }

  /** Request and reply: a server that echoes the question and adds one address record, its name a pointer to the
      question, has the address read, whatever the recursion and authority bits are. */
  method AnswerToRequest(name: Bytes, id: (UInt8, UInt8), bits: UInt8, ttl: Bytes, address: Bytes)
    returns (code: int, got: Option<Bytes>)
    requires 0 !in name && forall i :: 0 <= i < |Parts(name)| ==> |Parts(name)[i]| <= 63
    requires 0x80 <= bits && bits / 2 % 2 == 0 && |ttl| == 4 && |address| == 4
    ensures code == 1 && got == Some(address)
  {
    hide *;
    var query := BuildRequest(name, id);
    var packet := Echo(query, bits, ttl, address);
    var d := new Datagram(packet);
    ghost var r := EchoReply(name, id, bits, ttl, address);
    EchoEncoded(query, name, id, bits, ttl, address);
    code, got := ProcessResponse(d, false, true, id, r);
    EchoLooked(r, code, got);
  }

  /** The header of the reply, the question as it was asked, and one record of four data bytes. */
  function Echo(query: Bytes, bits: UInt8, ttl: Bytes, address: Bytes): Bytes
    requires |query| >= 12
  {
    [query[0], query[1], bits, 0x80, 0, 1, 0, 1, 0, 0, 0, 0] + query[12..]
    + ([0xC0, 0x0C, 0, 1, 0, 1] + ttl + [0, 4] + address)
  }

  ghost function EchoReply(name: Bytes, id: (UInt8, UInt8), bits: UInt8, ttl: Bytes, address: Bytes): Reply {
    Reply(id, Big(bits, 0x80), [0, 0, 0, 0], [Question(Parts(name), [0, 1, 0, 1])],
          [Answer([], Pointer(0xC0, 0x0C), 1, 1, ttl, address)], [])
  }

  lemma EchoEncoded(query: Bytes, name: Bytes, id: (UInt8, UInt8), bits: UInt8, ttl: Bytes, address: Bytes)
    requires query == RequestHeader(id) + EncodeName(Parts(name)) + [0, 1, 0, 1]
    requires forall i :: 0 <= i < |Parts(name)| ==> |Parts(name)[i]| <= 63
    requires 0x80 <= bits && bits / 2 % 2 == 0 && |ttl| == 4 && |address| == 4
    ensures var r := EchoReply(name, id, bits, ttl, address);
            |query| >= 12 && WellFormed(r) && Echo(query, bits, ttl, address) == Encode(r)
            && Accepted(Echo(query, bits, ttl, address), id)
            && |r.answers| == 1 && Wanted(r.answers[0]) && r.answers[0].data == address
  {
    hide EncodeQuestions, EncodeName, Parts, GoodQuestions, Header, EncodeAnswers;
    var r := EchoReply(name, id, bits, ttl, address);
    QueryIsQuestion(name, id);
    EchoRecord(r.answers[0]);
    EchoHeader(r, bits);
  }

  lemma EchoRecord(a: Answer)
    requires a == Answer([], Pointer(0xC0, 0x0C), 1, 1, a.ttl, a.data) && |a.ttl| == 4 && |a.data| == 4
    ensures GoodAnswers([a]) && EncodeAnswers([a]) == [0xC0, 0x0C, 0, 1, 0, 1] + a.ttl + [0, 4] + a.data
  {
    assert [a][1..] == [];
    assert EncodeAnswers([a]) == EncodeLabels(a.labels) + EncodeEnd(a.end) + EncodeFixed(a) + a.data + EncodeAnswers([]);
  }

  lemma EchoHeader(r: Reply, bits: UInt8)
    requires WellFormed(r) && r.flags == Big(bits, 0x80) && r.counts == [0, 0, 0, 0]
    requires |r.questions| == 1 && |r.answers| == 1
    ensures Header(r) == [r.id.0, r.id.1, bits, 0x80, 0, 1, 0, 1, 0, 0, 0, 0]
  {}

  lemma EchoLooked(r: Reply, code: int, got: Option<Bytes>)
    requires |r.answers| == 1 && Wanted(r.answers[0]) && |r.answers[0].data| == 4 && Looked(r.answers, code, got)
    ensures code == 1 && got == Some(r.answers[0].data)
  {
    assert FirstWanted(r.answers, 0);
  }

  lemma HeaderAhead(packet: Bytes, r: Reply)
    requires WellFormed(r) && packet == Encode(r)
    ensures GoodQuestions(r.questions) && GoodAnswers(r.answers)
    ensures |packet| >= 12
    ensures Big(packet[4], packet[5]) == |r.questions| && Big(packet[6], packet[7]) == |r.answers|
    ensures packet[12..] == EncodeQuestions(r.questions) + (EncodeAnswers(r.answers) + r.others)
  {
    hide EncodeQuestions, EncodeAnswers;
    var header, rest := Header(r), EncodeQuestions(r.questions) + (EncodeAnswers(r.answers) + r.others);
    assert |header| == 12;
    assert packet == header + rest;
  }

  lemma NameAhead(ahead: Bytes, labels: seq<Bytes>, rest: Bytes)
    requires ahead == EncodeName(labels) + rest
    requires labels != [] ==> 1 <= |labels[0]| <= 255
    ensures ahead != [] && (ahead[0] == 0 <==> labels == [])
    ensures labels == [] ==> ahead[1..] == rest
    ensures labels != [] ==> ahead[0] <= |ahead[1..]| && ahead[1..][ahead[0]..] == EncodeName(labels[1..]) + rest
  {
    if labels != [] {
      var tail := EncodeName(labels[1..]) + rest;
      assert ahead == EncodeLabel(labels[0]) + tail;
    }
  }
}
