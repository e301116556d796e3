// DNS messages (sections 4.1.1 to 4.1.3 of RFC 1035): a header, questions and three sections of
// resource records.
module DnsMessages {
  import opened Options
  import opened DnsNames

  type Word16 = x: int | 0 <= x < 65536
  type Word32 = x: int | 0 <= x < 0x1_0000_0000

  datatype Header = Header(id: Word16, flags: Word16, qdcount: Word16, ancount: Word16, nscount: Word16, arcount: Word16)
  datatype Question = Question(name: Bytes, qtype: Word16, qclass: Word16)
  datatype Record = Record(name: Bytes, rtype: Word16, class_: Word16, ttl: Word32, rdata: Bytes, rdataOffset: nat)
  datatype Message = Message(header: Header, questions: seq<Question>,
                             answers: seq<Record>, authority: seq<Record>, additional: seq<Record>)

  function Put16(v: Word16): (b: Bytes)
    ensures |b| == 2
  {
    [(v / 256) as Byte, (v % 256) as Byte]
  }

  function Get16(data: Bytes, i: nat): Word16
    requires i + 2 <= |data|
  {
    data[i] as int * 256 + data[i + 1] as int
  }

  function Get32(data: Bytes, i: nat): Word32
    requires i + 4 <= |data|
  {
    Get16(data, i) as int * 65536 + Get16(data, i + 2) as int
  }

  lemma Get16Put16(before: Bytes, v: Word16, after: Bytes)
    ensures Get16(before + Put16(v) + after, |before|) == v
  {
    var data := before + Put16(v) + after;
    assert data[|before|] == Put16(v)[0] && data[|before| + 1] == Put16(v)[1];
  }

  // ----- packing -----

  function PackedHeader(h: Header): (b: Bytes)
    ensures |b| == 12
  {
    Put16(h.id) + Put16(h.flags) + Put16(h.qdcount) + Put16(h.ancount) + Put16(h.nscount) + Put16(h.arcount)
  }

  function HeaderAt(data: Bytes): Header
    requires |data| >= 12
  {
    Header(Get16(data, 0), Get16(data, 2), Get16(data, 4), Get16(data, 6), Get16(data, 8), Get16(data, 10))
  }

  lemma HeaderRoundTrip(h: Header, rest: Bytes)
    ensures HeaderAt(PackedHeader(h) + rest) == h
  {
    var data := PackedHeader(h) + rest;
    assert forall i :: 0 <= i < 12 ==> data[i] == PackedHeader(h)[i];
  }

  function PackedQuestion(q: Question): Option<Bytes> {
    match PackedName(q.name)
    case None => None
    case Some(name) => Some(name + (Put16(q.qtype) + Put16(q.qclass)))
  }

  predicate ValidQuestions(qs: seq<Question>) {
    forall k :: 0 <= k < |qs| ==> PackedQuestion(qs[k]).Some?
  }

  function PackedQuestions(qs: seq<Question>): Bytes
    requires ValidQuestions(qs)
  {
    if qs == [] then [] else PackedQuestion(qs[0]).value + PackedQuestions(qs[1..])
  }

  /** Records are never packed: only queries are sent. */
  function PackedMessage(h: Header, qs: seq<Question>): Option<Bytes> {
    if ValidQuestions(qs) then Some(PackedHeader(h) + PackedQuestions(qs)) else None
  }

  lemma {:induction false} PackedAppend(qs: seq<Question>, q: Question)
    requires ValidQuestions(qs) && PackedQuestion(q).Some?
    ensures ValidQuestions(qs + [q]) && PackedQuestions(qs + [q]) == PackedQuestions(qs) + PackedQuestion(q).value
  {
    hide PackedQuestion;
    if qs == [] {
      assert [] + [q] == [q] && [q][1..] == [];
    } else {
      assert (qs + [q])[1..] == qs[1..] + [q];
      PackedAppend(qs[1..], q);
      Associative(PackedQuestion(qs[0]).value, PackedQuestions(qs[1..]), PackedQuestion(q).value);
    }
  }

  lemma Associative(a: Bytes, b: Bytes, c: Bytes)
    ensures a + (b + c) == (a + b) + c
  {
  }

  method PackMessage(h: Header, qs: seq<Question>) returns (r: Option<Bytes>)
    ensures r == PackedMessage(h, qs)
  {
    var buf := PackedHeader(h);
    assert buf + [] == buf;
    for k := 0 to |qs|
      invariant ValidQuestions(qs[..k]) && buf == PackedHeader(h) + PackedQuestions(qs[..k])
    {
      hide PackedName, PackedHeader, Put16, PackedQuestions;
      assert qs[..k + 1] == qs[..k] + [qs[k]];
      var name := PackName(qs[k].name);
      if name.None? {
        assert PackedQuestion(qs[k]).None?;
        return None;
      }
      var tmp := Put16(qs[k].qtype) + Put16(qs[k].qclass);
      PackedAppend(qs[..k], qs[k]);
      Regroup(PackedHeader(h), PackedQuestions(qs[..k]), name.value, tmp);
      buf := buf + name.value;
      buf := buf + tmp;
    }
    assert qs[..|qs|] == qs;
    return Some(buf);
  }

  lemma Regroup(a: Bytes, b: Bytes, c: Bytes, d: Bytes)
    ensures ((a + b) + c) + d == a + (b + (c + d))
  {
  }

  // ----- unpacking -----

  /** A name read to its end, if it has one: see `EndsSoonOrNever`. */
  function FullName(data: Bytes, offset: nat): Reading { NameAt(data, offset, |data| + 1) }

  /** A section: its items and the offset behind it, a fault, or a name without an end. */
  datatype Section<T> = Items(items: seq<T>, next: nat) | Rejected(fault: Fault) | Endless

  function Then<T>(items: seq<T>, s: Section<T>): Section<T> {
    match s
    case Items(more, next) => Items(items + more, next)
    case _ => s
  }

  function OneQuestion(data: Bytes, offset: nat): Section<Question> {
    match FullName(data, offset)
    case Unfinished => Endless
    case Faulty(f) => Rejected(f)
    case Name(ls, next) =>
      if next + 4 > |data| then Rejected(ShortQuestion)
      else Items([Question(Join(ls), Get16(data, next), Get16(data, next + 2))], next + 4)
  }

  function QuestionsAt(data: Bytes, offset: nat, n: nat): Section<Question>
    decreases n
  {
    if n == 0 then Items([], offset)
    else
      match OneQuestion(data, offset)
      case Items(qs, next) => Then(qs, QuestionsAt(data, next, n - 1))
      case s => s
  }

  function OneRecord(data: Bytes, offset: nat): Section<Record> {
    match FullName(data, offset)
    case Unfinished => Endless
    case Faulty(f) => Rejected(f)
    case Name(ls, off) =>
      if off + 10 > |data| then Rejected(ShortRecord)
      else
        var rdlen := Get16(data, off + 8);
        if off + 10 + rdlen > |data| then Rejected(ShortData)
        else
          Items([Record(Join(ls), Get16(data, off), Get16(data, off + 2), Get32(data, off + 4),
                        data[off + 10..off + 10 + rdlen], off + 10)], off + 10 + rdlen)
  }

  function RecordsAt(data: Bytes, offset: nat, n: nat): Section<Record>
    decreases n
  {
    if n == 0 then Items([], offset)
    else
      match OneRecord(data, offset)
      case Items(rs, next) => Then(rs, RecordsAt(data, next, n - 1))
      case s => s
  }

  datatype Parsed = Parsed(message: Message) | Refused(fault: Fault) | Hangs

  function Stop<T>(s: Section<T>): Parsed
    requires !s.Items?
  {
    if s.Endless? then Hangs else Refused(s.fault)
  }

  function MessageAt(data: Bytes): Parsed {
    if |data| < 12 then Refused(ShortResponse)
    else
      var h := HeaderAt(data);
      var qs := QuestionsAt(data, 12, h.qdcount);
      if !qs.Items? then Stop(qs) else
      var an := RecordsAt(data, qs.next, h.ancount);
      if !an.Items? then Stop(an) else
      var ns := RecordsAt(data, an.next, h.nscount);
      if !ns.Items? then Stop(ns) else
      var ar := RecordsAt(data, ns.next, h.arcount);
      if !ar.Items? then Stop(ar) else
      Parsed(Message(h, qs.items, an.items, ns.items, ar.items))
  }

  lemma ThenThen<T>(a: seq<T>, b: seq<T>, s: Section<T>)
    ensures Then(a, Then(b, s)) == Then(a + b, s)
  {
    if s.Items? {
      assert a + (b + s.items) == (a + b) + s.items;
    }
  }

  /** One round of the question loop. */
  method ReadQuestion(data: Bytes, from: nat) returns (r: Section<Question>)
    requires !OneQuestion(data, from).Endless?
    ensures r == OneQuestion(data, from)
  {
    var name := UnpackName(data, from, |data| + 1);
    if name.Err? {
      return Rejected(name.fault);
    }
    var offset: nat := name.after;
    if offset + 4 > |data| {
      return Rejected(ShortQuestion);
    }
    return Items([Question(name.name, Get16(data, offset), Get16(data, offset + 2))], offset + 4);
  }

  method ReadQuestions(data: Bytes, from: nat, n: nat) returns (r: Section<Question>)
    requires !QuestionsAt(data, from, n).Endless?
    ensures r == QuestionsAt(data, from, n)
  {
    var questions: seq<Question> := [];
    var offset: nat := from;
    ghost var whole := QuestionsAt(data, from, n);
    assert Then([], whole) == whole by { if whole.Items? { assert [] + whole.items == whole.items; } }
    for i := 0 to n
      invariant whole == Then(questions, QuestionsAt(data, offset, n - i))
    {
      hide OneQuestion;
      var one := ReadQuestion(data, offset);
      if !one.Items? {
        return one;
      }
      ThenThen(questions, one.items, QuestionsAt(data, one.next, n - i - 1));
      questions := questions + one.items;
      offset := one.next;
    }
    assert questions + [] == questions;
    return Items(questions, offset);
  }

  /** One round of the record loop. */
  method ReadRecord(data: Bytes, from: nat) returns (r: Section<Record>)
    requires !OneRecord(data, from).Endless?
    ensures r == OneRecord(data, from)
  {
    var name := UnpackName(data, from, |data| + 1);
    if name.Err? {
      return Rejected(name.fault);
    }
    var off: nat := name.after;
    if off + 10 > |data| {
      return Rejected(ShortRecord);
    }
    var rdlen := Get16(data, off + 8);
    if off + 10 + rdlen > |data| {
      return Rejected(ShortData);
    }
    var record := Record(name.name, Get16(data, off), Get16(data, off + 2), Get32(data, off + 4),
                         data[off + 10..off + 10 + rdlen], off + 10);
    return Items([record], off + 10 + rdlen);
  }

  method ReadRecords(data: Bytes, from: nat, n: nat) returns (r: Section<Record>)
    requires !RecordsAt(data, from, n).Endless?
    ensures r == RecordsAt(data, from, n)
  {
    var records: seq<Record> := [];
    var off: nat := from;
    ghost var whole := RecordsAt(data, from, n);
    assert Then([], whole) == whole by { if whole.Items? { assert [] + whole.items == whole.items; } }
    for i := 0 to n
      invariant whole == Then(records, RecordsAt(data, off, n - i))
    {
      hide OneRecord;
      var one := ReadRecord(data, off);
      if !one.Items? {
        return one;
      }
      ThenThen(records, one.items, RecordsAt(data, one.next, n - i - 1));
      records := records + one.items;
      off := one.next;
    }
    assert records + [] == records;
    return Items(records, off);
  }

  method UnpackMessage(data: Bytes) returns (r: Parsed)
    requires !MessageAt(data).Hangs?
    ensures r == MessageAt(data)
  {
    if |data| < 12 {
      return Refused(ShortResponse);
    }
    var header := HeaderAt(data);
    var questions := ReadQuestions(data, 12, header.qdcount);
    if !questions.Items? {
      return Refused(questions.fault);
    }
    var answers := ReadRecords(data, questions.next, header.ancount);
    if !answers.Items? {
      return Refused(answers.fault);
    }
    var authority := ReadRecords(data, answers.next, header.nscount);
    if !authority.Items? {
      return Refused(authority.fault);
    }
    var additional := ReadRecords(data, authority.next, header.arcount);
    if !additional.Items? {
      return Refused(additional.fault);
    }
    return Parsed(Message(header, questions.items, answers.items, authority.items, additional.items));
  }

  // ----- round trip -----

  function Undotted(qs: seq<Question>): seq<Question> {
    if qs == [] then [] else [qs[0].(name := TrimDot(qs[0].name))] + Undotted(qs[1..])
  }

  /** The same bytes, cut at the places where they are read. */
  lemma QuestionLayout(before: Bytes, name: Bytes, t: Bytes, c: Bytes, after: Bytes)
    ensures var data := before + ((name + (t + c)) + after);
            && data == before + (name + (t + (c + after)))
            && data == (before + name) + t + (c + after)
            && data == (before + name + t) + c + after
  {
  }

  lemma OneQuestionIs(data: Bytes, offset: nat, ls: seq<Bytes>, next: nat)
    requires FullName(data, offset) == Name(ls, next) && next + 4 <= |data|
    ensures OneQuestion(data, offset) == Items([Question(Join(ls), Get16(data, next), Get16(data, next + 2))], next + 4)
  {
  }

  lemma PackedQuestionParts(q: Question)
    requires PackedQuestion(q).Some?
    ensures ValidName(q.name) && PackedName(q.name).Some?
    ensures PackedQuestion(q).value == PackedName(q.name).value + (Put16(q.qtype) + Put16(q.qclass))
    ensures q.(name := TrimDot(q.name)) == Question(TrimDot(q.name), q.qtype, q.qclass)
  {
  }

  lemma QuestionReadBack(before: Bytes, q: Question, after: Bytes)
    requires PackedQuestion(q).Some?
    ensures OneQuestion(before + (PackedQuestion(q).value + after), |before|)
         == Items([q.(name := TrimDot(q.name))], |before| + |PackedQuestion(q).value|)
  {
    hide *;
    PackedQuestionParts(q);
    var name, t, c := PackedName(q.name).value, Put16(q.qtype), Put16(q.qclass);
    QuestionLayout(before, name, t, c, after);
    NameRoundTrip(before, q.name, t + (c + after));
    Get16Put16(before + name, q.qtype, c + after);
    Get16Put16(before + name + t, q.qclass, after);
    var data := before + ((name + (t + c)) + after);
    FullNameIs(data, |before|);
    OneQuestionIs(data, |before|, NameAt(data, |before|, |data| + 1).labels, |before| + |name|);
  }

  lemma FullNameIs(data: Bytes, offset: nat)
    ensures FullName(data, offset) == NameAt(data, offset, |data| + 1)
  {
  }

  lemma Cut(before: Bytes, wire: Bytes, rest: Bytes, after: Bytes)
    ensures before + ((wire + rest) + after) == before + (wire + (rest + after))
    ensures before + ((wire + rest) + after) == (before + wire) + (rest + after)
  {
  }

  lemma QuestionsStep(data: Bytes, offset: nat, n: nat, one: seq<Question>, next: nat, rest: seq<Question>, end: nat)
    requires n > 0 && OneQuestion(data, offset) == Items(one, next) && QuestionsAt(data, next, n - 1) == Items(rest, end)
    ensures QuestionsAt(data, offset, n) == Items(one + rest, end)
  {
  }

  lemma PackedQuestionsParts(qs: seq<Question>)
    requires ValidQuestions(qs) && qs != []
    ensures PackedQuestion(qs[0]).Some? && ValidQuestions(qs[1..])
    ensures PackedQuestions(qs) == PackedQuestion(qs[0]).value + PackedQuestions(qs[1..])
    ensures Undotted(qs) == [qs[0].(name := TrimDot(qs[0].name))] + Undotted(qs[1..])
  {
  }

  lemma NoQuestions(data: Bytes, offset: nat)
    ensures QuestionsAt(data, offset, 0) == Items([], offset) && PackedQuestions([]) == [] && Undotted([]) == []
  {
  }

  /** The packed questions are read back. */
  lemma {:induction false} QuestionsReadBack(before: Bytes, qs: seq<Question>, after: Bytes)
    requires ValidQuestions(qs)
    ensures QuestionsAt(before + (PackedQuestions(qs) + after), |before|, |qs|)
         == Items(Undotted(qs), |before| + |PackedQuestions(qs)|)
    decreases qs
  {
    hide *;
    if qs == [] {
      NoQuestions(before + (PackedQuestions(qs) + after), |before|);
    } else {
      PackedQuestionsParts(qs);
      var wire, rest := PackedQuestion(qs[0]).value, PackedQuestions(qs[1..]);
      Cut(before, wire, rest, after);
      QuestionReadBack(before, qs[0], rest + after);
      QuestionsReadBack(before + wire, qs[1..], after);
      QuestionsStep(before + ((wire + rest) + after), |before|, |qs|, [qs[0].(name := TrimDot(qs[0].name))],
                    |before + wire|, Undotted(qs[1..]), |before + wire| + |rest|);
    }
  }

  lemma {:induction false} UndottedLength(qs: seq<Question>)
    ensures |Undotted(qs)| == |qs|
  {
    if qs != [] { UndottedLength(qs[1..]); }
  }

  lemma {:induction false} QuestionCount(data: Bytes, offset: nat, n: nat)
    requires QuestionsAt(data, offset, n).Items?
    ensures |QuestionsAt(data, offset, n).items| == n
    decreases n
  {
    if n > 0 {
      QuestionCount(data, OneQuestion(data, offset).next, n - 1);
    }
  }

  // ----- records, against an encoder without compression -----

  function Put32(v: Word32): Bytes { Put16(v / 65536) + Put16(v % 65536) }

  predicate ValidRecord(r: Record) { ValidName(r.name) && |r.rdata| < 65536 }

  function EncodeRecord(r: Record): Bytes
    requires ValidRecord(r)
  {
    PackedLabels(r.name);
    PackedName(r.name).value + (FixedFields(r) + r.rdata)
  }

  function EncodeRecords(rs: seq<Record>): Bytes
    requires ValidRecords(rs)
  {
    if rs == [] then [] else EncodeRecord(rs[0]) + EncodeRecords(rs[1..])
  }

  /** The record as it is read at an offset. */
  function Placed(r: Record, offset: nat): Record
    requires ValidRecord(r)
  {
    PackedLabels(r.name);
    r.(name := TrimDot(r.name), rdataOffset := offset + |PackedName(r.name).value| + 10)
  }

  function PlacedAll(rs: seq<Record>, offset: nat): seq<Record>
    requires ValidRecords(rs)
  {
    if rs == [] then [] else [Placed(rs[0], offset)] + PlacedAll(rs[1..], offset + |EncodeRecord(rs[0])|)
  }

  function FixedFields(r: Record): (b: Bytes)
    requires |r.rdata| < 65536
    ensures |b| == 10
  {
    Put16(r.rtype) + Put16(r.class_) + Put32(r.ttl) + Put16(|r.rdata|)
  }

  lemma FieldsReadBack(before: Bytes, r: Record, after: Bytes)
    requires |r.rdata| < 65536
    ensures var data := before + (FixedFields(r) + (r.rdata + after)); var off := |before|;
            && |data| == off + 10 + |r.rdata| + |after|
            && Get16(data, off) == r.rtype && Get16(data, off + 2) == r.class_ && Get32(data, off + 4) == r.ttl
            && Get16(data, off + 8) == |r.rdata| && data[off + 10..off + 10 + |r.rdata|] == r.rdata
  {
    var data := before + (FixedFields(r) + (r.rdata + after));
    assert forall i :: 0 <= i < 10 ==> data[|before| + i] == FixedFields(r)[i];
  }

  lemma OneRecordIs(data: Bytes, offset: nat, ls: seq<Bytes>, off: nat, r: Record)
    requires FullName(data, offset) == Name(ls, off) && off + 10 + |r.rdata| <= |data| && |r.rdata| < 65536
    requires Get16(data, off) == r.rtype && Get16(data, off + 2) == r.class_ && Get32(data, off + 4) == r.ttl
    requires Get16(data, off + 8) == |r.rdata| && data[off + 10..off + 10 + |r.rdata|] == r.rdata
    ensures OneRecord(data, offset) == Items([r.(name := Join(ls), rdataOffset := off + 10)], off + 10 + |r.rdata|)
  {
  }

  lemma RecordLayout(before: Bytes, name: Bytes, fields: Bytes, rdata: Bytes, after: Bytes)
    ensures var data := before + ((name + (fields + rdata)) + after);
            data == before + (name + (fields + (rdata + after))) == (before + name) + (fields + (rdata + after))
  {
  }

  lemma RecordParts(r: Record, offset: nat)
    requires ValidRecord(r)
    ensures ValidName(r.name) && PackedName(r.name).Some? && |r.rdata| < 65536
    ensures EncodeRecord(r) == PackedName(r.name).value + (FixedFields(r) + r.rdata)
    ensures |EncodeRecord(r)| == |PackedName(r.name).value| + 10 + |r.rdata|
    ensures Placed(r, offset) == r.(name := TrimDot(r.name), rdataOffset := offset + |PackedName(r.name).value| + 10)
  {
    PackedLabels(r.name);
  }

  lemma RecordReadBack(before: Bytes, r: Record, after: Bytes)
    requires ValidRecord(r)
    ensures OneRecord(before + (EncodeRecord(r) + after), |before|)
         == Items([Placed(r, |before|)], |before| + |EncodeRecord(r)|)
  {
    hide *;
    RecordParts(r, |before|);
    var name, fields := PackedName(r.name).value, FixedFields(r);
    RecordLayout(before, name, fields, r.rdata, after);
    NameRoundTrip(before, r.name, fields + (r.rdata + after));
    FieldsReadBack(before + name, r, after);
    var data := before + ((name + (fields + r.rdata)) + after);
    FullNameIs(data, |before|);
    OneRecordIs(data, |before|, NameAt(data, |before|, |data| + 1).labels, |before| + |name|, r);
  }

  lemma RecordsStep(data: Bytes, offset: nat, n: nat, one: seq<Record>, next: nat, rest: seq<Record>, end: nat)
    requires n > 0 && OneRecord(data, offset) == Items(one, next) && RecordsAt(data, next, n - 1) == Items(rest, end)
    ensures RecordsAt(data, offset, n) == Items(one + rest, end)
  {
  }

  predicate ValidRecords(rs: seq<Record>) { forall k :: 0 <= k < |rs| ==> ValidRecord(rs[k]) }

  lemma NoRecords(data: Bytes, offset: nat)
    ensures RecordsAt(data, offset, 0) == Items([], offset) && EncodeRecords([]) == [] && PlacedAll([], offset) == []
  {
  }

  lemma RecordsParts(rs: seq<Record>, offset: nat)
    requires ValidRecords(rs) && rs != []
    ensures ValidRecord(rs[0]) && ValidRecords(rs[1..])
    ensures EncodeRecords(rs) == EncodeRecord(rs[0]) + EncodeRecords(rs[1..])
    ensures PlacedAll(rs, offset) == [Placed(rs[0], offset)] + PlacedAll(rs[1..], offset + |EncodeRecord(rs[0])|)
  {
  }

  /** Every section of uncompressed records is read back, each record knowing where its data is. */
  lemma {:induction false} RecordsReadBack(before: Bytes, rs: seq<Record>, after: Bytes)
    requires ValidRecords(rs)
    ensures RecordsAt(before + (EncodeRecords(rs) + after), |before|, |rs|)
         == Items(PlacedAll(rs, |before|), |before| + |EncodeRecords(rs)|)
    decreases rs
  {
    hide *;
    if rs == [] {
      NoRecords(before + (EncodeRecords(rs) + after), |before|);
    } else {
      RecordsParts(rs, |before|);
      var wire, rest := EncodeRecord(rs[0]), EncodeRecords(rs[1..]);
      Cut(before, wire, rest, after);
      RecordReadBack(before, rs[0], rest + after);
      RecordsReadBack(before + wire, rs[1..], after);
      RecordsStep(before + ((wire + rest) + after), |before|, |rs|, [Placed(rs[0], |before|)],
                  |before + wire|, PlacedAll(rs[1..], |before + wire|), |before + wire| + |rest|);
    }
  }

  // ----- whole messages -----

  lemma {:induction false} PlacedLength(rs: seq<Record>, offset: nat)
    requires ValidRecords(rs)
    ensures |PlacedAll(rs, offset)| == |rs|
    decreases rs
  {
    if rs != [] { PlacedLength(rs[1..], offset + |EncodeRecord(rs[0])|); }
  }

  lemma {:induction false} RecordCount(data: Bytes, offset: nat, n: nat)
    requires RecordsAt(data, offset, n).Items?
    ensures |RecordsAt(data, offset, n).items| == n
    decreases n
  {
    if n > 0 {
      RecordCount(data, OneRecord(data, offset).next, n - 1);
    }
  }

  /** A reply on the wire: header, questions, answers, authority records, additional records. */
  function Reply(h: Header, qs: seq<Question>, an: seq<Record>, ns: seq<Record>, ar: seq<Record>): Bytes
    requires ValidQuestions(qs) && ValidRecords(an) && ValidRecords(ns) && ValidRecords(ar)
  {
    PackedHeader(h) + PackedQuestions(qs) + EncodeRecords(an) + EncodeRecords(ns) + EncodeRecords(ar)
  }

  datatype Offsets = Offsets(answers: nat, authority: nat, additional: nat)

  /** Where the answers, the authority records and the additional records begin. */
  function Starts(qs: seq<Question>, an: seq<Record>, ns: seq<Record>): Offsets
    requires ValidQuestions(qs) && ValidRecords(an) && ValidRecords(ns)
  {
    var answers := 12 + |PackedQuestions(qs)|;
    var authority := answers + |EncodeRecords(an)|;
    Offsets(answers, authority, authority + |EncodeRecords(ns)|)
  }

  lemma ReplyLayout(a: Bytes, b: Bytes, c: Bytes, d: Bytes, e: Bytes)
    ensures var data := a + b + c + d + e;
            && data == a + (b + (c + (d + e))) && data == (a + b) + (c + (d + e))
            && data == (a + b + c) + (d + e) && data == (a + b + c + d) + (e + [])
  {
  }

  /** The sections of a reply are read where they stand. */
  lemma ReplySections(h: Header, qs: seq<Question>, an: seq<Record>, ns: seq<Record>, ar: seq<Record>)
    requires ValidQuestions(qs) && ValidRecords(an) && ValidRecords(ns) && ValidRecords(ar)
    ensures var data, o := Reply(h, qs, an, ns, ar), Starts(qs, an, ns);
            && |data| >= 12 && HeaderAt(data) == h
            && QuestionsAt(data, 12, |qs|) == Items(Undotted(qs), o.answers)
            && RecordsAt(data, o.answers, |an|) == Items(PlacedAll(an, o.answers), o.authority)
            && RecordsAt(data, o.authority, |ns|) == Items(PlacedAll(ns, o.authority), o.additional)
            && RecordsAt(data, o.additional, |ar|) == Items(PlacedAll(ar, o.additional), |data|)
  {
    hide HeaderAt, QuestionsAt, RecordsAt, PlacedAll, EncodeRecords, PackedQuestions, ValidQuestions, ValidRecords, Undotted;
    var a, b, c, d, e := PackedHeader(h), PackedQuestions(qs), EncodeRecords(an), EncodeRecords(ns), EncodeRecords(ar);
    hide PackedHeader;
    ReplyLayout(a, b, c, d, e);
    HeaderRoundTrip(h, b + (c + (d + e)));
    QuestionsReadBack(a, qs, c + (d + e));
    RecordsReadBack(a + b, an, d + e);
    RecordsReadBack(a + b + c, ns, e);
    RecordsReadBack(a + b + c + d, ar, []);
  }

  /** The message as it is read: each record in its section, knowing where its data is. */
  predicate Restored(m: Message, h: Header, qs: seq<Question>, an: seq<Record>, ns: seq<Record>, ar: seq<Record>)
    requires ValidQuestions(qs) && ValidRecords(an) && ValidRecords(ns) && ValidRecords(ar)
  {
    var o := Starts(qs, an, ns);
    && m.header == h && m.questions == Undotted(qs)
    && m.answers == PlacedAll(an, o.answers) && m.authority == PlacedAll(ns, o.authority) && m.additional == PlacedAll(ar, o.additional)
  }

  lemma MessageCounts(data: Bytes)
    requires MessageAt(data).Parsed?
    ensures var m := MessageAt(data).message;
            && |m.questions| == m.header.qdcount && |m.answers| == m.header.ancount
            && |m.authority| == m.header.nscount && |m.additional| == m.header.arcount
  {
    hide HeaderAt, QuestionsAt, RecordsAt;
    var h := HeaderAt(data);
    var qs := QuestionsAt(data, 12, h.qdcount);
    var an := RecordsAt(data, qs.next, h.ancount);
    var ns := RecordsAt(data, an.next, h.nscount);
    QuestionCount(data, 12, h.qdcount);
    RecordCount(data, qs.next, h.ancount);
    RecordCount(data, an.next, h.nscount);
    RecordCount(data, ns.next, h.arcount);
  }

  /** Every reply is read as it was written, each section where it belongs, exactly when the header's four
      counts are those of the sections. */
  lemma ReplyRoundTrip(h: Header, qs: seq<Question>, an: seq<Record>, ns: seq<Record>, ar: seq<Record>)
    requires ValidQuestions(qs) && ValidRecords(an) && ValidRecords(ns) && ValidRecords(ar)
    ensures var r := MessageAt(Reply(h, qs, an, ns, ar));
            r.Parsed? && Restored(r.message, h, qs, an, ns, ar)
            <==> h.qdcount == |qs| && h.ancount == |an| && h.nscount == |ns| && h.arcount == |ar|
  {
    var data, o := Reply(h, qs, an, ns, ar), Starts(qs, an, ns);
    ReplySections(h, qs, an, ns, ar);
    UndottedLength(qs);
    PlacedLength(an, o.answers);
    PlacedLength(ns, o.authority);
    PlacedLength(ar, o.additional);
    hide Reply, Starts, HeaderAt, QuestionsAt, RecordsAt, PlacedAll, Undotted, ValidQuestions, ValidRecords;
    if MessageAt(data).Parsed? {
      MessageCounts(data);
    }
  }

  /** What the program sends is read back, names without a final dot, exactly when the header counts the
      questions and announces no records. */
  lemma MessageRoundTrip(h: Header, qs: seq<Question>)
    requires ValidQuestions(qs)
    ensures PackedMessage(h, qs).Some?
    ensures MessageAt(PackedMessage(h, qs).value) == Parsed(Message(h, Undotted(qs), [], [], []))
            <==> h.qdcount == |qs| && h.ancount == 0 && h.nscount == 0 && h.arcount == 0
  {
    NoSections(h, qs);
    var data := PackedMessage(h, qs).value;
    hide MessageAt, PackedMessage, Reply, Undotted, Restored, PlacedAll, Starts;
    ReplyRoundTrip(h, qs, [], [], []);
    if MessageAt(data).Parsed? {
      NothingElse(MessageAt(data).message, h, qs);
    }
  }

  lemma NoSections(h: Header, qs: seq<Question>)
    requires ValidQuestions(qs)
    ensures ValidRecords([]) && PackedMessage(h, qs) == Some(Reply(h, qs, [], [], []))
  {
    hide PackedHeader, PackedQuestions;
    assert EncodeRecords([]) == [];
    var a, b := PackedHeader(h), PackedQuestions(qs);
    assert a + b + [] + [] + [] == a + b;
  }

  lemma NothingElse(m: Message, h: Header, qs: seq<Question>)
    requires ValidQuestions(qs)
    ensures ValidRecords([]) && (Restored(m, h, qs, [], [], []) <==> m == Message(h, Undotted(qs), [], [], []))
  {
    hide Starts, Undotted;
  }

  // ----- the bytes -----

  /** Twelve bytes, each pair a field, high byte first. */
  lemma HeaderBytes(h: Header)
    ensures PackedHeader(h)
         == [(h.id / 256) as Byte, (h.id % 256) as Byte, (h.flags / 256) as Byte, (h.flags % 256) as Byte,
             (h.qdcount / 256) as Byte, (h.qdcount % 256) as Byte, (h.ancount / 256) as Byte, (h.ancount % 256) as Byte,
             (h.nscount / 256) as Byte, (h.nscount % 256) as Byte, (h.arcount / 256) as Byte, (h.arcount % 256) as Byte]
  {
  }

  lemma QuestionBytes(q: Question)
    requires ValidName(q.name)
    ensures PackedQuestion(q).Some? && ValidLabels(LabelsOf(q.name))
    ensures PackedQuestion(q).value
         == EncodeLabels(LabelsOf(q.name))
            + [0, (q.qtype / 256) as Byte, (q.qtype % 256) as Byte, (q.qclass / 256) as Byte, (q.qclass % 256) as Byte]
  {
    PackedLabels(q.name);
    hide LabelsOf, EncodeLabels, PackedName;
  }
}
