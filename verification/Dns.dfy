/** The DNS client of UIPEthernet: BuildRequest writes a query, ProcessResponse reads the reply.
    Formats are those of RFC 1035, sections 3.1, 4.1.1 to 4.1.4. */
module Dns {
  import opened MachineInts

  datatype Option<+T> = None | Some(value: T)

  type Bytes = seq<UInt8>

  const DOT: UInt8 := 46

  // ----- names

  function FirstDot(name: Bytes): (k: nat)
    ensures k <= |name| && (k < |name| ==> name[k] == DOT) && DOT !in name[..k]
  {
    if name == [] || name[0] == DOT then 0
    else
      var k := 1 + FirstDot(name[1..]);
      assert name[..k] == [name[0]] + name[1..][..k - 1];
      k
  }

  /** The name split at its dots, empty parts dropped. */
  function Parts(name: Bytes): seq<Bytes>
    decreases |name|
  {
    if name == [] then []
    else
      var k := FirstDot(name);
      var first := if k > 0 then [name[..k]] else [];
      var others := if k < |name| then Parts(name[k + 1..]) else [];
      first + others
  }

  /** A length stored in a uint8_t. */
  function LengthByte(n: nat): UInt8 { n % 256 }

  /** A label: its length in one byte, then its bytes. */
  function EncodeLabel(part: Bytes): Bytes {
    [LengthByte(|part|)] + part
  }

  function EncodeLabels(labels: seq<Bytes>): Bytes {
    if labels == [] then [] else EncodeLabel(labels[0]) + EncodeLabels(labels[1..])
  }

  /** A domain name as in section 3.1: labels, ended by a zero length. */
  function EncodeName(labels: seq<Bytes>): Bytes {
    EncodeLabels(labels) + [0]
  }

  /** The labels of an uncompressed name and the bytes after it, if it is well formed: length bytes of 64
      and more are not lengths (section 4.1.4). */
  function DecodeName(bytes: Bytes): Option<(seq<Bytes>, Bytes)>
    decreases |bytes|
  {
    if bytes == [] then None
    else if bytes[0] == 0 then Some(([], bytes[1..]))
    else if bytes[0] >= 64 || |bytes| < 1 + bytes[0] then None
    else
      match DecodeName(bytes[1 + bytes[0]..])
      case None => None
      case Some((labels, rest)) => Some(([bytes[1..1 + bytes[0]]] + labels, rest))
  }

  /** A label that section 3.1 allows. */
  predicate ShortLabel(part: Bytes) {
    1 <= |part| <= 63
  }

  predicate ShortLabels(labels: seq<Bytes>) {
    forall i :: 0 <= i < |labels| ==> ShortLabel(labels[i])
  }

  lemma ShortLabelsStep(labels: seq<Bytes>)
    requires labels != []
    ensures ShortLabels(labels) <==> ShortLabel(labels[0]) && ShortLabels(labels[1..])
  {
    hide ShortLabel;
    if ShortLabel(labels[0]) && ShortLabels(labels[1..]) {
      forall i | 0 <= i < |labels| ensures ShortLabel(labels[i]) {
        assert i > 0 ==> labels[i] == labels[1..][i - 1];
      }
    }
    if ShortLabels(labels) {
      forall i | 0 <= i < |labels[1..]| ensures ShortLabel(labels[1..][i]) {
        assert labels[1..][i] == labels[i + 1];
      }
    }
  }

  /** Encoding and decoding give back the labels exactly when every label is 1 to 63 bytes long. */
  lemma {:induction false} NameRoundTrip(labels: seq<Bytes>, rest: Bytes)
    requires forall i :: 0 <= i < |labels| ==> labels[i] != []
    ensures DecodeName(EncodeName(labels) + rest) == Some((labels, rest)) <==> ShortLabels(labels)
    decreases |labels|
  {
    hide ShortLabels, EncodeLabel, DecodeName;
    if labels == [] {
      assert EncodeName(labels) + rest == [0] + rest;
      RootDecodes(rest);
    } else {
      var part, tail := labels[0], EncodeName(labels[1..]) + rest;
      assert EncodeName(labels) + rest == EncodeLabel(part) + tail;
      assert forall i :: 0 <= i < |labels[1..]| ==> labels[1..][i] == labels[i + 1];
      NameRoundTrip(labels[1..], rest);
      ShortLabelsStep(labels);
      if ShortLabel(part) {
        LabelDecodes(part, tail);
        assert labels == [part] + labels[1..];
      } else {
        LongLabelLost(part, tail, labels, rest);
      }
    }
  }

  lemma RootDecodes(rest: Bytes)
    ensures DecodeName([0] + rest) == Some(([], rest)) && ShortLabels([])
  {
    assert ([0] + rest)[1..] == rest;
  }

  lemma LabelDecodes(part: Bytes, tail: Bytes)
    requires ShortLabel(part)
    ensures DecodeName(EncodeLabel(part) + tail)
         == match DecodeName(tail)
            case None => None
            case Some((labels, rest)) => Some(([part] + labels, rest))
  {
    var bytes := EncodeLabel(part) + tail;
    assert bytes[1..1 + bytes[0]] == part && bytes[1 + bytes[0]..] == tail;
  }

  /** A label of more than 63 bytes never decodes to itself. */
  lemma LongLabelLost(part: Bytes, tail: Bytes, labels: seq<Bytes>, rest: Bytes)
    requires |part| > 63 && labels != [] && labels[0] == part
    ensures DecodeName(EncodeLabel(part) + tail) != Some((labels, rest))
  {
    var bytes := EncodeLabel(part) + tail;
    if DecodeName(bytes).Some? && DecodeName(bytes).value.0 != [] {
      assert |DecodeName(bytes).value.0[0]| == bytes[0] < 64;
    }
  }

  /** Joining parts with dots. */
  function JoinDots(parts: seq<Bytes>): Bytes {
    if parts == [] then [] else if |parts| == 1 then parts[0] else parts[0] + [DOT] + JoinDots(parts[1..])
  }

  /** Dots only between parts: none at an end, no two in a row. */
  predicate PlainHost(name: Bytes) {
    && name != [] && name[0] != DOT && name[|name| - 1] != DOT
    && forall i :: 0 <= i < |name| - 1 ==> !(name[i] == DOT && name[i + 1] == DOT)
  }

  /** Parts are not empty and hold no dots. */
  lemma {:induction false} PartsAreParts(name: Bytes, i: nat)
    requires i < |Parts(name)|
    ensures Parts(name)[i] != [] && DOT !in Parts(name)[i]
    decreases |name|
  {
    hide FirstDot, Parts;
    NoEmptyParts(name);
    var k := FirstDot(name);
    PartsStep(name);
    if k > 0 && i == 0 {
      assert Parts(name)[0] == name[..k];
    } else {
      var j := if k > 0 then i - 1 else i;
      assert k < |name| && Parts(name)[i] == Parts(name[k + 1..])[j];
      PartsAreParts(name[k + 1..], j);
    }
  }

  lemma NoEmptyParts(name: Bytes)
    ensures name == [] ==> Parts(name) == []
  {}

  /** Joining the parts of a plain host name with dots gives the name back. */
  lemma {:induction false} PartsJoin(name: Bytes)
    requires PlainHost(name)
    ensures Parts(name) != [] && JoinDots(Parts(name)) == name
    decreases |name|
  {
    hide FirstDot, PlainHost, Parts, JoinDots;
    var k := FirstDot(name);
    WholeName(name);
    PartsStep(name);
    if k < |name| {
      PlainRest(name, k);
      PartsJoin(name[k + 1..]);
      JoinStep(name[..k], Parts(name[k + 1..]));
      assert name == name[..k] + [DOT] + name[k + 1..];
    } else {
      assert name[..k] == name && Parts(name) == [name];
    }
  }

  lemma WholeName(name: Bytes)
    requires PlainHost(name)
    ensures name != [] && JoinDots([name]) == name
  {}

  lemma PartsStep(name: Bytes)
    requires name != []
    ensures var k := FirstDot(name);
      Parts(name) == (if k > 0 then [name[..k]] else []) + (if k < |name| then Parts(name[k + 1..]) else [])
  {}

  lemma JoinStep(part: Bytes, parts: seq<Bytes>)
    requires parts != []
    ensures JoinDots([part] + parts) == part + [DOT] + JoinDots(parts)
  {
    assert ([part] + parts)[1..] == parts;
  }

  lemma PlainRest(name: Bytes, k: nat)
    requires PlainHost(name) && k < |name| && name[k] == DOT
    ensures k > 0 && PlainHost(name[k + 1..])
  {
    var rest := name[k + 1..];
    assert k < |name| - 1;
    assert !(name[k] == DOT && name[k + 1] == DOT);
    forall i | 0 <= i < |rest| - 1 ensures !(rest[i] == DOT && rest[i + 1] == DOT) {
      var j := k + 1 + i;
      assert rest[i] == name[j] && rest[i + 1] == name[j + 1];
    }
  }

  // ----- BuildRequest

  /** The byte at i of a C string, the terminating zero included. */
  function CharAt(name: Bytes, i: nat): UInt8
    requires i <= |name|
  {
    if i < |name| then name[i] else 0
  }

  /** Flags with only recursion desired, one question, and no other records (section 4.1.1). */
  function RequestHeader(id: (UInt8, UInt8)): Bytes {
    [id.0, id.1, 1, 0, 0, 1, 0, 0, 0, 0, 0, 0]
  }

  /** The query for the type A records of class IN of a host name. */
  method BuildRequest(name: Bytes, id: (UInt8, UInt8)) returns (packet: Bytes)
    requires 0 !in name
    ensures packet == RequestHeader(id) + EncodeName(Parts(name)) + [0, 1, 0, 1]
    ensures |packet| >= 17 && packet[0] == id.0 && packet[1] == id.1
    ensures packet[2] == 0x01 && packet[3] == 0x00 // recursion desired
    ensures packet[4] == 0 && packet[5] == 1 // one question
    ensures forall i :: 6 <= i < 12 ==> packet[i] == 0
  {
    hide Parts, EncodeLabels;
    packet := [id.0, id.1] + [1, 0] + [0, 1] + [0, 0] + [0, 0] + [0, 0];
    var parts := WriteParts(name);
    packet := packet + parts;
    packet := packet + [0];
    packet := packet + [0, 1];
    packet := packet + [0, 1];
  }

  /** The name a.bc is written as 1 a 2 b c 0. */
  lemma SampleName()
    ensures EncodeName(Parts([97, DOT, 98, 99])) == [1, 97, 2, 98, 99, 0]
  {
    hide FirstDot;
    var name, tail: Bytes := [97, DOT, 98, 99], [98, 99];
    assert name[..1] == [97] && name[1..] == [DOT, 98, 99] && name[2..] == tail;
    FirstDotIs(name, 1);
    FirstDotIs(tail, 2);
    assert tail[..2] == tail;
    assert Parts(tail) == [tail];
    assert Parts(name) == [[97], tail];
    LabelsStep([97], [tail]);
    LabelsStep(tail, []);
    assert [[97]] + [tail] == [[97], tail] && [tail] + [] == [tail];
  }

  /** The pointer walk over the host name. */
  method WriteParts(name: Bytes) returns (out: Bytes)
    requires 0 !in name
    ensures out == EncodeLabels(Parts(name))
  {
    hide *;
    var start, end: nat := 0, 0;
    out := [];
    FromStart(name);
    while CharAt(name, end) != 0
      invariant end <= |name| && (start == end + 1 || (start == 0 && end == 0))
      invariant out + EncodeLabels(Parts(From(name, start))) == EncodeLabels(Parts(name))
      decreases if start <= |name| then |name| + 1 - start else 0
    {
      NotAtEnd(name, end);
      end := start;
      while CharAt(name, end) != 0 && CharAt(name, end) != DOT
        invariant start <= end <= |name| && DOT !in name[start..end]
        decreases |name| - end
      {
        NoDotYet(name, start, end);
        end := end + 1;
      }
      AtPartEnd(name, end);
      NextPart(name, start, end);
      Regroup(out, EncodeLabel(name[start..end]), EncodeLabels(Parts(From(name, end + 1))));
      if end - start > 0 {
        var len := LengthByte(end - start);
        LabelIs(name[start..end], len);
        out := out + ([len] + name[start..end]);
      }
      start := end + 1;
    }
    Finished(name, start, end);
  }

  lemma FromStart(name: Bytes)
    ensures From(name, 0) == name
  {}

  lemma NotAtEnd(name: Bytes, i: nat)
    requires i <= |name| && CharAt(name, i) != 0
    ensures i < |name| && CharAt(name, i) == name[i]
  {}

  lemma NoDotYet(name: Bytes, start: nat, end: nat)
    requires start <= end <= |name| && DOT !in name[start..end] && CharAt(name, end) != 0 && CharAt(name, end) != DOT
    ensures end < |name| && DOT !in name[start..end + 1]
  {
    assert name[start..end + 1] == name[start..end] + [name[end]];
  }

  lemma Regroup(a: Bytes, b: Bytes, c: Bytes)
    ensures a + (b + c) == (a + b) + c && a + ([] + c) == a + c
  {}

  lemma AtPartEnd(name: Bytes, i: nat)
    requires i <= |name| && 0 !in name && (CharAt(name, i) == 0 || CharAt(name, i) == DOT)
    ensures i < |name| ==> name[i] == DOT
  {}

  lemma Finished(name: Bytes, start: nat, end: nat)
    requires end <= |name| && CharAt(name, end) == 0 && 0 !in name && (start == end + 1 || (start == 0 && end == 0))
    ensures EncodeLabels(Parts(From(name, start))) == []
  {
    ZeroInside(name, end);
  }

  lemma ZeroInside(name: Bytes, i: nat)
    requires i <= |name|
    ensures CharAt(name, i) == 0 && i < |name| ==> 0 in name
  {
    assert i < |name| ==> name[i] in name;
  }

  function From(name: Bytes, i: nat): Bytes {
    if i <= |name| then name[i..] else []
  }

  lemma LabelIs(part: Bytes, len: UInt8)
    requires len == LengthByte(|part|)
    ensures [len] + part == EncodeLabel(part)
  {}

  /** Reading one part off the front of a name. */
  lemma NextPart(name: Bytes, start: nat, end: nat)
    requires start <= end <= |name| && DOT !in name[start..end] && (end < |name| ==> name[end] == DOT)
    ensures EncodeLabels(Parts(From(name, start)))
         == (if end > start then EncodeLabel(name[start..end]) else []) + EncodeLabels(Parts(From(name, end + 1)))
  {
    hide *;
    var s, k, others := name[start..], end - start, Parts(From(name, end + 1));
    FromIs(name, start);
    assert s[..k] == name[start..end];
    if start == |name| {
      EndOfParts(name, start);
      EndOfParts(name, end + 1);
    } else {
      FirstDotIs(s, k);
      PartsStep(s);
      RestOfParts(name, start, end);
      if k > 0 {
        assert Parts(s) == [s[..k]] + others;
        LabelsStep(s[..k], others);
      } else {
        assert Parts(s) == others;
      }
    }
  }

  lemma FromIs(name: Bytes, i: nat)
    requires i <= |name|
    ensures From(name, i) == name[i..]
  {}

  lemma EndOfParts(name: Bytes, i: nat)
    requires i >= |name|
    ensures Parts(From(name, i)) == [] && EncodeLabels(Parts(From(name, i))) == []
  {}

  lemma RestOfParts(name: Bytes, start: nat, end: nat)
    requires start <= end <= |name|
    ensures Parts(From(name, end + 1)) == if end < |name| then Parts(name[start..][end - start + 1..]) else []
  {
    if end < |name| {
      assert name[start..][end - start + 1..] == From(name, end + 1);
    }
  }

  lemma LabelsStep(part: Bytes, parts: seq<Bytes>)
    ensures EncodeLabels([part] + parts) == EncodeLabel(part) + EncodeLabels(parts)
  {
    assert ([part] + parts)[1..] == parts;
  }

  lemma {:induction false} FirstDotIs(s: Bytes, k: nat)
    requires k <= |s| && DOT !in s[..k] && (k < |s| ==> s[k] == DOT)
    ensures FirstDot(s) == k
  {
    if k > 0 {
      assert s[0] == s[..k][0];
      assert s[1..][..k - 1] == s[..k][1..];
      FirstDotIs(s[1..], k - 1);
    }
  }
}
