// Domain names on the wire (sections 3.1 and 4.1.4 of RFC 1035): labels behind their lengths, a zero
// byte or a compression pointer at the end.
module DnsNames {
  import opened Options

  newtype Byte = x: int | 0 <= x < 256
  type Bytes = seq<Byte>

  const DOT: Byte := 46

  // ----- dotted names -----

  function TrimDot(name: Bytes): Bytes {
    if name != [] && name[|name| - 1] == DOT then name[..|name| - 1] else name
  }

  function FirstDot(s: Bytes): (i: int)
    ensures -1 <= i < |s|
    ensures i >= 0 ==> s[i] == DOT && forall k :: 0 <= k < i ==> s[k] != DOT
    ensures i == -1 ==> forall k :: 0 <= k < |s| ==> s[k] != DOT
  {
    if s == [] then -1
    else if s[0] == DOT then 0
    else
      var i := FirstDot(s[1..]);
      if i == -1 then -1 else i + 1
  }

  /** The parts between dots; there is always at least one. */
  function Split(s: Bytes): (parts: seq<Bytes>)
    ensures |parts| > 0
  {
    var i := FirstDot(s);
    if i == -1 then [s] else [s[..i]] + Split(s[i + 1..])
  }

  function Join(labels: seq<Bytes>): Bytes {
    if labels == [] then []
    else if |labels| == 1 then labels[0]
    else labels[0] + [DOT] + Join(labels[1..])
  }

  lemma SplitStep(s: Bytes)
    ensures var i := FirstDot(s); Split(s) == if i == -1 then [s] else [s[..i]] + Split(s[i + 1..])
  {
    hide FirstDot;
  }

  lemma JoinStep(first: Bytes, rest: seq<Bytes>)
    ensures Join([first]) == first
    ensures |rest| > 0 ==> Join([first] + rest) == first + [DOT] + Join(rest)
  {
    assert ([first] + rest)[1..] == rest;
  }

  lemma {:induction false} JoinSplit(s: Bytes)
    ensures Join(Split(s)) == s
  {
    hide Split, Join;
    var i := FirstDot(s);
    SplitStep(s);
    if i == -1 {
      JoinStep(s, []);
    } else {
      JoinStep(s[..i], Split(s[i + 1..]));
      JoinSplit(s[i + 1..]);
      assert s == s[..i] + [DOT] + s[i + 1..];
    }
  }

  // ----- packing -----

  predicate ValidLabel(l: Bytes) { 0 < |l| <= 63 }

  predicate ValidLabels(ls: seq<Bytes>) { forall k :: 0 <= k < |ls| ==> ValidLabel(ls[k]) }

  /** A name the packer accepts: the root, or labels of 1 to 63 bytes with at most one final dot. */
  predicate ValidName(name: Bytes) { name == [DOT] || ValidLabels(Split(TrimDot(name))) }

  function EncodeLabels(ls: seq<Bytes>): Bytes
    requires ValidLabels(ls)
  {
    if ls == [] then [] else [|ls[0]| as Byte] + ls[0] + EncodeLabels(ls[1..])
  }

  lemma {:induction false} EncodeAppend(ls: seq<Bytes>, l: Bytes)
    requires ValidLabels(ls) && ValidLabel(l)
    ensures EncodeLabels(ls + [l]) == EncodeLabels(ls) + ([|l| as Byte] + l)
  {
    if ls == [] {
      assert [] + [l] == [l];
      assert [l][1..] == [];
    } else {
      assert (ls + [l])[1..] == ls[1..] + [l];
      EncodeAppend(ls[1..], l);
    }
  }

  function PackedName(name: Bytes): Option<Bytes> {
    if name == [DOT] then Some([0])
    else if ValidLabels(Split(TrimDot(name))) then Some(EncodeLabels(Split(TrimDot(name))) + [0])
    else None
  }

  method PackName(name: Bytes) returns (r: Option<Bytes>)
    ensures r == PackedName(name)
  {
    if name == [DOT] {
      return Some([0]);
    }
    var parts := Split(TrimDot(name));
    hide Split, TrimDot;
    var buf: Bytes := [];
    for k := 0 to |parts|
      invariant ValidLabels(parts[..k]) && buf == EncodeLabels(parts[..k])
    {
      var part := parts[k];
      assert parts[..k + 1] == parts[..k] + [part];
      if |part| == 0 || |part| > 63 {
        assert !ValidLabel(parts[k]);
        return None;
      }
      EncodeAppend(parts[..k], part);
      buf := buf + [|part| as Byte];
      buf := buf + part;
    }
    assert parts[..|parts|] == parts;
    return Some(buf + [0]);
  }

  // ----- unpacking -----

  datatype Fault = NameOutOfRange | PointerOutOfRange | LabelOutOfRange
    | ShortResponse | ShortQuestion | ShortRecord | ShortData

  /** What stands at an offset: the end of the name, a pointer, or a label. */
  datatype Piece = Bad(fault: Fault) | End | Pointer(target: nat) | Label(text: Bytes, next: nat)

  function Pointee(data: Bytes, offset: nat): nat
    requires offset + 1 < |data|
  {
    (data[offset] as int % 64) * 256 + data[offset + 1] as int
  }

  function PieceAt(data: Bytes, offset: nat): Piece {
    if offset >= |data| then Bad(NameOutOfRange)
    else
      var length := data[offset] as int;
      if length == 0 then End
      else if length >= 192 then
        if offset + 1 >= |data| || Pointee(data, offset) >= |data| then Bad(PointerOutOfRange)
        else Pointer(Pointee(data, offset))
      else if offset + 1 + length > |data| then Bad(LabelOutOfRange)
      else Label(data[offset + 1..offset + 1 + length], offset + 1 + length)
  }

  /** A name and the offset behind it, a fault, or no end within the given number of pieces. */
  datatype Reading = Name(labels: seq<Bytes>, after: nat) | Faulty(fault: Fault) | Unfinished

  /** A name is its first label and the name behind it; a pointer stands for the name it points to, and
      the offset behind the name is the one behind the first pointer. */
  function NameAt(data: Bytes, offset: nat, pieces: nat): Reading
    decreases pieces
  {
    if pieces == 0 then Unfinished
    else
      match PieceAt(data, offset)
      case Bad(f) => Faulty(f)
      case End => Name([], offset + 1)
      case Pointer(target) =>
        (match NameAt(data, target, pieces - 1)
         case Name(ls, _) => Name(ls, offset + 2)
         case r => r)
      case Label(l, next) =>
        (match NameAt(data, next, pieces - 1)
         case Name(ls, after) => Name([l] + ls, after)
         case r => r)
  }

  /** Joining what the loop has collected with what is still to be read. */
  function Continued(labels: seq<Bytes>, start: Option<nat>, r: Reading): Reading {
    match r
    case Name(ls, after) => Name(labels + ls, if start.Some? then start.value else after)
    case _ => r
  }

  datatype Unpacked = Ok(name: Bytes, after: nat) | Err(fault: Fault)

  function Result(r: Reading): Unpacked
    requires !r.Unfinished?
  {
    match r
    case Name(ls, after) => Ok(Join(ls), after)
    case Faulty(f) => Err(f)
  }

  method ReadPiece(data: Bytes, offset: nat) returns (piece: Piece)
    ensures piece == PieceAt(data, offset)
  {
    if offset >= |data| {
      return Bad(NameOutOfRange);
    }
    var length := data[offset] as int;
    if length == 0 {
      return End;
    }
    if length >= 192 {
      if offset + 1 >= |data| {
        return Bad(PointerOutOfRange);
      }
      var ptr := (length % 64) * 256 + data[offset + 1] as int;
      if ptr >= |data| {
        return Bad(PointerOutOfRange);
      }
      return Pointer(ptr);
    }
    var next := offset + 1 + length;
    if next > |data| {
      return Bad(LabelOutOfRange);
    }
    return Label(data[offset + 1..next], next);
  }

  /** The unpacking loop, on a name that has an end: `pieces` is any number that suffices. */
  method UnpackName(data: Bytes, from: nat, ghost pieces: nat) returns (r: Unpacked)
    requires !NameAt(data, from, pieces).Unfinished?
    ensures r == Result(NameAt(data, from, pieces))
  {
    var labels: seq<Bytes> := [];
    var offset: nat, start: nat := from, from;
    var jumped := false;
    ghost var whole := NameAt(data, from, pieces);
    ghost var left := pieces;
    while true
      invariant whole == Continued(labels, if jumped then Some(start) else None, NameAt(data, offset, left))
      decreases left
    {
      hide NameAt, Continued, Join, PieceAt;
      ContinuedStep(labels, if jumped then Some(start) else None, data, offset, left);
      var piece := ReadPiece(data, offset);
      left := left - 1;
      match piece {
        case Bad(fault) =>
          return Err(fault);
        case End =>
          return Ok(Join(labels), if jumped then start else offset + 1);
        case Pointer(target) =>
          if !jumped {
            start := offset + 2;
          }
          offset := target;
          jumped := true;
        case Label(text, next) =>
          labels := labels + [text];
          offset := next;
      }
    }
  }

  /** One piece more. */
  lemma ContinuedStep(labels: seq<Bytes>, start: Option<nat>, data: Bytes, offset: nat, left: nat)
    requires !Continued(labels, start, NameAt(data, offset, left)).Unfinished?
    ensures left > 0
    ensures var whole := Continued(labels, start, NameAt(data, offset, left));
            match PieceAt(data, offset)
            case Bad(f) => whole == Faulty(f)
            case End => whole == Name(labels, if start.Some? then start.value else offset + 1)
            case Pointer(target) =>
              whole == Continued(labels, if start.Some? then start else Some(offset + 2), NameAt(data, target, left - 1))
            case Label(l, next) => whole == Continued(labels + [l], start, NameAt(data, next, left - 1))
  {
    match PieceAt(data, offset)
    case End => assert labels + [] == labels;
    case Label(l, next) =>
      var rest := NameAt(data, next, left - 1);
      if rest.Name? {
        PrependLabel(labels, l, rest.labels);
      }
    case _ =>
  }

  lemma PrependLabel(labels: seq<Bytes>, l: Bytes, rest: seq<Bytes>)
    ensures labels + ([l] + rest) == (labels + [l]) + rest
  {
  }

  // ----- which names have an end -----

  lemma {:induction false} MorePieces(data: Bytes, offset: nat, p: nat, q: nat)
    requires p <= q && !NameAt(data, offset, p).Unfinished?
    ensures NameAt(data, offset, q) == NameAt(data, offset, p)
    decreases p
  {
    match PieceAt(data, offset)
    case Pointer(target) => MorePieces(data, target, p - 1, q - 1);
    case Label(_, next) => MorePieces(data, next, p - 1, q - 1);
    case _ =>
  }

  /** Every pointer of the name points below the start of the segment it stands in. */
  predicate PointsBack(data: Bytes, segment: nat, offset: nat)
    decreases segment, |data| - offset
  {
    match PieceAt(data, offset)
    case Pointer(target) => target < segment && PointsBack(data, target, target)
    case Label(_, next) => next <= |data| && PointsBack(data, segment, next)
    case _ => true
  }

  /** A name whose pointers point back has an end. */
  lemma {:induction false} PointingBackEnds(data: Bytes, segment: nat, offset: nat) returns (pieces: nat)
    requires PointsBack(data, segment, offset)
    ensures !NameAt(data, offset, pieces).Unfinished?
    decreases segment, |data| - offset
  {
    match PieceAt(data, offset)
    case Pointer(target) =>
      var n := PointingBackEnds(data, target, target);
      pieces := n + 1;
    case Label(_, next) =>
      var n := PointingBackEnds(data, segment, next);
      pieces := n + 1;
    case _ => pieces := 1;
  }

  /** The offset reached after `k` pieces that are not the last. */
  function Reach(data: Bytes, offset: nat, k: nat): Option<nat>
    decreases k
  {
    if k == 0 then Some(offset)
    else
      match PieceAt(data, offset)
      case Pointer(target) => Reach(data, target, k - 1)
      case Label(_, next) => Reach(data, next, k - 1)
      case _ => None
  }

  lemma {:induction false} UnfinishedIsReach(data: Bytes, offset: nat, k: nat)
    ensures NameAt(data, offset, k).Unfinished? <==> Reach(data, offset, k).Some?
    decreases k
  {
    if k > 0 {
      match PieceAt(data, offset)
      case Pointer(target) => UnfinishedIsReach(data, target, k - 1);
      case Label(_, next) => UnfinishedIsReach(data, next, k - 1);
      case _ =>
    }
  }

  lemma {:induction false} ReachCompose(data: Bytes, offset: nat, i: nat, j: nat)
    requires Reach(data, offset, i).Some?
    ensures Reach(data, offset, i + j) == Reach(data, Reach(data, offset, i).value, j)
    decreases i
  {
    hide PieceAt;
    if i > 0 {
      match PieceAt(data, offset)
      case Pointer(target) => ReachCompose(data, target, i - 1, j);
      case Label(_, next) => ReachCompose(data, next, i - 1, j);
      case _ =>
    }
  }

  lemma {:induction false} ReachEarlier(data: Bytes, offset: nat, i: nat, j: nat)
    requires i <= j && Reach(data, offset, j).Some?
    ensures Reach(data, offset, i).Some?
    ensures i < j ==> Reach(data, offset, i).value < |data|
    decreases i
  {
    if i > 0 {
      match PieceAt(data, offset)
      case Pointer(target) => ReachEarlier(data, target, i - 1, j - 1);
      case Label(_, next) => ReachEarlier(data, next, i - 1, j - 1);
      case _ =>
    }
  }

  /** An offset reached twice is reached over and over. */
  lemma {:induction false} CycleNeverEnds(data: Bytes, offset: nat, i: nat, j: nat, k: nat)
    requires i < j && Reach(data, offset, i).Some? && Reach(data, offset, i) == Reach(data, offset, j)
    ensures Reach(data, offset, k).Some?
    decreases k
  {
    if k <= j {
      ReachEarlier(data, offset, k, j);
    } else {
      CycleNeverEnds(data, offset, i, j, i + (k - j));
      ReachCompose(data, offset, j, k - j);
      ReachCompose(data, offset, i, k - j);
    }
  }

  lemma {:induction false} Pigeonhole(xs: seq<nat>, n: nat) returns (i: nat, j: nat)
    requires |xs| > n && forall k :: 0 <= k < |xs| ==> xs[k] < n
    ensures i < j < |xs| && xs[i] == xs[j]
    decreases n
  {
    var last := |xs| - 1;
    if k :| 0 <= k < last && xs[k] == xs[last] {
      i, j := k, last;
    } else {
      // Rename n - 1 to the last value, which no other element has.
      var ys := seq(last, k requires 0 <= k < last => if xs[k] == n - 1 then xs[last] else xs[k]);
      i, j := Pigeonhole(ys, n - 1);
    }
  }

  /** A name either ends within as many pieces as the message has bytes, and one more, or never. */
  lemma EndsSoonOrNever(data: Bytes, offset: nat, k: nat)
    requires NameAt(data, offset, |data| + 1).Unfinished?
    ensures NameAt(data, offset, k).Unfinished?
  {
    var n := |data| + 1;
    UnfinishedIsReach(data, offset, n);
    forall i | 0 <= i < n ensures Reach(data, offset, i).Some? && Reach(data, offset, i).value < |data| {
      ReachEarlier(data, offset, i, n);
    }
    var xs := seq(n, i requires 0 <= i < n => Reach(data, offset, i).value);
    var i, j := Pigeonhole(xs, |data|);
    CycleNeverEnds(data, offset, i, j, k);
    UnfinishedIsReach(data, offset, k);
  }

  // ----- round trip -----

  /** Packed labels are read back, wherever they stand. */
  lemma {:induction false} LabelsReadBack(before: Bytes, ls: seq<Bytes>, after: Bytes)
    requires ValidLabels(ls)
    ensures NameAt(before + (EncodeLabels(ls) + ([0] + after)), |before|, |ls| + 1)
         == Name(ls, |before| + |EncodeLabels(ls)| + 1)
    decreases ls
  {
    var data, p := before + (EncodeLabels(ls) + ([0] + after)), |before|;
    if ls == [] {
      assert data[p] == 0;
    } else {
      hide PieceAt, ValidLabel;
      var l := ls[0];
      var head, more := [|l| as Byte] + l, EncodeLabels(ls[1..]);
      assert EncodeLabels(ls) == head + more;
      HeadRegroups(before, head, more, [0] + after);
      LabelsReadBack(before + head, ls[1..], after);
      HeadReadBack(before, l, more + ([0] + after));
      assert [l] + ls[1..] == ls;
    }
  }

  lemma HeadRegroups(before: Bytes, head: Bytes, more: Bytes, after: Bytes)
    ensures before + ((head + more) + after) == (before + head) + (more + after)
    ensures |before + head| == |before| + |head|
  {
  }

  lemma HeadReadBack(before: Bytes, l: Bytes, rest: Bytes)
    requires ValidLabel(l)
    ensures PieceAt((before + ([|l| as Byte] + l)) + rest, |before|) == Label(l, |before| + 1 + |l|)
  {
    var data, p := (before + ([|l| as Byte] + l)) + rest, |before|;
    assert data[p] as int == |l|;
    assert data[p + 1..p + 1 + |l|] == l;
  }

  /** The labels a name is packed as. */
  function LabelsOf(name: Bytes): seq<Bytes> {
    if name == [DOT] then [] else Split(TrimDot(name))
  }

  lemma PackedLabels(name: Bytes)
    requires ValidName(name)
    ensures ValidLabels(LabelsOf(name)) && PackedName(name) == Some(EncodeLabels(LabelsOf(name)) + [0])
    ensures Join(LabelsOf(name)) == TrimDot(name)
  {
    JoinSplit(TrimDot(name));
    if name == [DOT] {
      assert TrimDot(name) == [];
      assert EncodeLabels([]) + [0] == [0];
    }
  }

  /** Every valid name comes back without its final dot, at any offset, and reading goes on right
      behind it. */
  lemma NameRoundTrip(before: Bytes, name: Bytes, after: Bytes)
    requires ValidName(name)
    ensures PackedName(name).Some?
    ensures var wire := PackedName(name).value;
            var r := NameAt(before + (wire + after), |before|, |before + (wire + after)| + 1);
            r.Name? && Join(r.labels) == TrimDot(name) && r.after == |before| + |wire|
  {
    hide NameAt, EncodeLabels, Join, Split, TrimDot, PackedName, ValidName, ValidLabels, LabelsOf;
    PackedLabels(name);
    var labels := LabelsOf(name);
    var encoded := EncodeLabels(labels);
    var data := before + ((encoded + [0]) + after);
    EndRegroups(encoded, after);
    LabelsReadBack(before, labels, after);
    LabelsAreShort(labels);
    MorePieces(data, |before|, |labels| + 1, |data| + 1);
  }

  lemma EndRegroups(encoded: Bytes, after: Bytes)
    ensures (encoded + [0]) + after == encoded + ([0] + after)
  {
  }

  lemma {:induction false} LabelsAreShort(ls: seq<Bytes>)
    requires ValidLabels(ls)
    ensures |ls| <= |EncodeLabels(ls)|
  {
    if ls != [] {
      LabelsAreShort(ls[1..]);
    }
  }

  // ----- compressed names -----

  /** Labels that end in a pointer: two bytes with the two high bits set and the target in the other fourteen. */
  function EndingInPointer(ls: seq<Bytes>, target: nat): Bytes
    requires ValidLabels(ls) && target < 16384
  {
    EncodeLabels(ls) + [(192 + target / 256) as Byte, (target % 256) as Byte]
  }

  lemma PointerRead(before: Bytes, target: nat, after: Bytes)
    requires target < 16384
    ensures var data := before + ([(192 + target / 256) as Byte, (target % 256) as Byte] + after);
            PieceAt(data, |before|) == if target < |data| then Pointer(target) else Bad(PointerOutOfRange)
  {
    var data := before + ([(192 + target / 256) as Byte, (target % 256) as Byte] + after);
    assert data[|before|] as int == 192 + target / 256 && data[|before| + 1] as int == target % 256;
  }

  lemma {:induction false} PointerFollowed(data: Bytes, before: Bytes, ls: seq<Bytes>, target: nat, after: Bytes, k: nat)
    requires ValidLabels(ls) && target < 16384 && data == before + (EndingInPointer(ls, target) + after)
    requires target < |data| && NameAt(data, target, k).Name?
    ensures NameAt(data, |before|, |ls| + 1 + k)
         == Name(ls + NameAt(data, target, k).labels, |before| + |EndingInPointer(ls, target)|)
    decreases ls
  {
    hide *;
    var ms := NameAt(data, target, k).labels;
    if ls == [] {
      NoLabels(target);
      PointerRead(before, target, after);
      PointerThenName(data, |before|, target, k);
      assert [] + ms == ms;
    } else {
      FirstIsValid(ls);
      FirstLabel(ls, target);
      var head, more := [|ls[0]| as Byte] + ls[0], EndingInPointer(ls[1..], target);
      HeadRegroups(before, head, more, after);
      HeadReadBack(before, ls[0], more + after);
      PointerFollowed(data, before + head, ls[1..], target, after, k);
      LabelThenName(data, |before|, ls[0], |before + head|, |ls| + k);
      Onward(ls, ms);
    }
  }

  lemma Onward(ls: seq<Bytes>, ms: seq<Bytes>)
    requires ls != []
    ensures [ls[0]] + (ls[1..] + ms) == ls + ms
  {
  }

  lemma PointerThenName(data: Bytes, offset: nat, target: nat, pieces: nat)
    requires PieceAt(data, offset) == Pointer(target) && NameAt(data, target, pieces).Name?
    ensures NameAt(data, offset, pieces + 1) == Name(NameAt(data, target, pieces).labels, offset + 2)
  {
  }

  lemma NoLabels(target: nat)
    requires target < 16384
    ensures EndingInPointer([], target) == [(192 + target / 256) as Byte, (target % 256) as Byte]
  {
  }

  lemma FirstIsValid(ls: seq<Bytes>)
    requires ValidLabels(ls) && ls != []
    ensures ValidLabel(ls[0]) && 0 < |ls[0]| <= 63 && ValidLabels(ls[1..])
  {
  }

  lemma FirstLabel(ls: seq<Bytes>, target: nat)
    requires ValidLabels(ls) && ls != [] && target < 16384
    ensures EndingInPointer(ls, target) == ([|ls[0]| as Byte] + ls[0]) + EndingInPointer(ls[1..], target)
  {
    Associated([|ls[0]| as Byte] + ls[0], EncodeLabels(ls[1..]), [(192 + target / 256) as Byte, (target % 256) as Byte]);
  }

  lemma LabelThenName(data: Bytes, offset: nat, l: Bytes, next: nat, pieces: nat)
    requires PieceAt(data, offset) == Label(l, next) && NameAt(data, next, pieces).Name?
    ensures NameAt(data, offset, pieces + 1) == Name([l] + NameAt(data, next, pieces).labels, NameAt(data, next, pieces).after)
  {
  }

  lemma Associated(a: Bytes, b: Bytes, c: Bytes)
    ensures (a + b) + c == a + (b + c)
  {
  }

  /** A name that ends in a pointer is its labels and the name at the target; reading goes on behind the pointer. */
  lemma CompressedNameRead(before: Bytes, ls: seq<Bytes>, target: nat, after: Bytes)
    requires ValidLabels(ls) && target < 16384
    requires var data := before + (EndingInPointer(ls, target) + after);
             target < |data| && NameAt(data, target, |data| + 1).Name?
    ensures var data := before + (EndingInPointer(ls, target) + after);
            NameAt(data, |before|, |data| + 1)
            == Name(ls + NameAt(data, target, |data| + 1).labels, |before| + |EndingInPointer(ls, target)|)
  {
    var data := before + (EndingInPointer(ls, target) + after);
    hide NameAt, EndingInPointer;
    PointerFollowed(data, before, ls, target, after, |data| + 1);
    if NameAt(data, |before|, |data| + 1).Unfinished? {
      EndsSoonOrNever(data, |before|, |ls| + 1 + (|data| + 1));
    } else {
      MorePieces(data, |before|, |data| + 1, |ls| + 1 + (|data| + 1));
    }
  }

  // ----- dotted text -----

  /** Labels with dots between them, in ASCII. */
  function Dotted(ls: seq<Bytes>): Bytes {
    if ls == [] then [] else if |ls| == 1 then ls[0] else ls[0] + [46] + Dotted(ls[1..])
  }

  predicate NoDots(ls: seq<Bytes>) { forall k :: 0 <= k < |ls| ==> 46 !in ls[k] }

  lemma {:induction false} SplitDotted(ls: seq<Bytes>)
    requires |ls| > 0 && NoDots(ls)
    ensures Split(Dotted(ls)) == ls
    decreases ls
  {
    hide Split, FirstDot;
    var s := Dotted(ls);
    SplitStep(s);
    if |ls| == 1 {
      NoDotFound(ls[0], []);
      assert ls == [ls[0]] && ls[0] + [] == ls[0];
    } else {
      SplitDotted(ls[1..]);
      NoDotFound(ls[0], [46] + Dotted(ls[1..]));
      assert s == ls[0] + ([46] + Dotted(ls[1..]));
      assert s[..|ls[0]|] == ls[0] && s[|ls[0]| + 1..] == Dotted(ls[1..]);
      assert ls == [ls[0]] + ls[1..];
    }
  }

  lemma NoDotFound(l: Bytes, rest: Bytes)
    requires 46 !in l && (rest != [] ==> rest[0] == 46)
    ensures FirstDot(l + rest) == if rest == [] then -1 else |l|
  {
    var s := l + rest;
    assert forall k :: 0 <= k < |l| ==> s[k] == l[k] && l[k] in l;
    assert rest != [] ==> s[|l|] == 46;
  }

  lemma {:induction false} LastOfDotted(ls: seq<Bytes>)
    requires |ls| > 0 && NoDots(ls) && |ls[|ls| - 1]| > 0
    ensures Dotted(ls) != [] && Dotted(ls)[|Dotted(ls)| - 1] != 46
    decreases ls
  {
    if |ls| == 1 {
      assert ls[0][|ls[0]| - 1] in ls[0];
    } else {
      LastOfDotted(ls[1..]);
    }
  }

  /** Labels between dots, with or without a final one, are packed behind their lengths if each has 1 to 63 bytes, and
      refused otherwise; the dot alone is the root. */
  lemma DottedIsPacked(ls: seq<Bytes>)
    requires |ls| > 0 && NoDots(ls) && |ls[|ls| - 1]| > 0
    ensures var sized := forall k :: 0 <= k < |ls| ==> 0 < |ls[k]| <= 63;
            && (sized <==> ValidLabels(ls))
            && (sized ==> PackedName(Dotted(ls)) == PackedName(Dotted(ls) + [46]) == Some(EncodeLabels(ls) + [0]))
            && (!sized ==> PackedName(Dotted(ls)) == PackedName(Dotted(ls) + [46]) == None)
    ensures PackedName([46]) == Some([0])
  {
    hide Split, Dotted, EncodeLabels;
    SplitDotted(ls);
    LastOfDotted(ls);
    assert (Dotted(ls) + [46])[..|Dotted(ls)|] == Dotted(ls);
  }
}
