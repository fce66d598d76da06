/** DNS names with pointer compression (section 4.1.4 of RFC 1035), and the
    announcement an RC server sends against what a browser extracts from it. */
module Mdns {
  import opened Bytes
  import opened Outcomes

  /** Names and TXT values are octet strings. */
  type Text = seq<Byte>

  const DOT: Byte := 46
  const TYPE_A: Word16 := 1
  const TYPE_PTR: Word16 := 12
  const TYPE_TXT: Word16 := 16
  const TYPE_SRV: Word16 := 33
  const CLASS_IN: Word16 := 1
  const FLAG_ANSWER: Word16 := 0x8400
  const TTL: Word32 := 120

  /** "_rcp", "_udp" and "local". */
  const RCP: Text := [95, 114, 99, 112]
  const UDP: Text := [95, 117, 100, 112]
  const LOCAL: Text := [108, 111, 99, 97, 108]

  datatype Error = Truncated | BadPointer

  // ------------------------------------------------------------------ names

  function Join(labels: seq<Text>): Text {
    if labels == [] then []
    else if |labels| == 1 then labels[0]
    else labels[0] + [DOT] + Join(labels[1..])
  }

  /** The pieces of `s` between dots; at least one. */
  function Split(s: Text): (labels: seq<Text>)
    ensures |labels| >= 1
  {
    if s == [] then [[]]
    else
      var rest := Split(s[1..]);
      if s[0] == DOT then [[]] + rest else [[s[0]] + rest[0]] + rest[1..]
  }

  predicate NoDot(piece: Text) {
    DOT !in piece
  }

  lemma {:induction false} SplitNoDot(piece: Text)
    requires NoDot(piece)
    ensures Split(piece) == [piece]
  {
    if piece != [] {
      assert piece[0] in piece;
      assert NoDot(piece[1..]);
      SplitNoDot(piece[1..]);
      assert [piece[0]] + piece[1..] == piece;
    }
  }

  lemma {:induction false} SplitFirst(piece: Text, rest: Text)
    requires NoDot(piece)
    ensures Split(piece + [DOT] + rest) == [piece] + Split(rest)
  {
    var s := piece + [DOT] + rest;
    if piece == [] {
      assert s[0] == DOT && s[1..] == rest;
    } else {
      assert s[0] == piece[0] && piece[0] in piece;
      assert s[1..] == piece[1..] + [DOT] + rest;
      assert NoDot(piece[1..]);
      SplitFirst(piece[1..], rest);
      assert [piece[0]] + piece[1..] == piece;
      assert ([piece[1..]] + Split(rest))[1..] == Split(rest);
    }
  }

  lemma {:induction false} SplitOfJoin(labels: seq<Text>)
    requires labels != [] && forall i :: 0 <= i < |labels| ==> NoDot(labels[i])
    ensures Split(Join(labels)) == labels
  {
    if |labels| == 1 {
      SplitNoDot(labels[0]);
    } else {
      SplitOfJoin(labels[1..]);
      SplitFirst(labels[0], Join(labels[1..]));
      assert labels == [labels[0]] + labels[1..];
    }
  }

  function LabelOctets(labels: seq<Text>): Text {
    if labels == [] then [0] else [|labels[0]| % 0x100] + labels[0] + LabelOctets(labels[1..])
  }

  function TrimDot(name: Text): Text {
    if name != [] && name[|name| - 1] == DOT then name[..|name| - 1] else name
  }

  function EncodeName(name: Text): Text {
    var n := TrimDot(name);
    if n == [] then [0] else LabelOctets(Split(n))
  }

  /** The label loop of the source. */
  method EncodeNameLoop(name: Text) returns (buf: Text)
    ensures buf == EncodeName(name)
  {
    var n := TrimDot(name);
    if n == [] {
      return [0];
    }
    var labels := Split(n);
    buf := [];
    for i := 0 to |labels|
      invariant LabelOctets(labels) == buf + LabelOctets(labels[i..])
    {
      assert labels[i..][1..] == labels[i + 1..];
      buf := buf + [|labels[i]| % 0x100] + labels[i];
    }
    buf := buf + [0];
  }

  const MAX_POINTERS := 64

  function Pointer(hi: Byte, lo: Byte): nat
    requires hi >= 0xC0
  {
    (hi - 0xC0) * 0x100 + lo
  }

  /** Reading a name at `off`: labels in order, pointers strictly backwards and at
      most sixty-four of them. The next offset is after the first pointer, or
      after the terminator if there was none. */
  function NameFrom(msg: Text, off: nat, visited: nat, parts: seq<Text>, resume: Option<nat>)
    : Result<(Text, nat), Error>
    requires visited <= MAX_POINTERS
    decreases MAX_POINTERS - visited, |msg| - off
  {
    if off >= |msg| then Err(Truncated)
    else
      var ln := msg[off];
      if ln == 0 then Ok((Join(parts) + [DOT], if resume.Some? then resume.value else off + 1))
      else if ln >= 0xC0 then
        if off + 1 >= |msg| then Err(Truncated)
        else
          var ptr := Pointer(ln, msg[off + 1]);
          if ptr >= off || visited + 1 > MAX_POINTERS then Err(BadPointer)
          else NameFrom(msg, ptr, visited + 1, parts, if resume.Some? then resume else Some(off + 2))
      else if off + 1 + ln > |msg| then Err(Truncated)
      else NameFrom(msg, off + 1 + ln, visited, parts + [msg[off + 1..off + 1 + ln]], resume)
  }

  function DecodeName(msg: Text, off: nat): Result<(Text, nat), Error> {
    NameFrom(msg, off, 0, [], None)
  }

  /** The source's loop. It terminates on every input: a pointer uses up the
      budget, anything else uses up octets. */
  method DecodeNameLoop(msg: Text, start: nat) returns (r: Result<(Text, nat), Error>)
    ensures r == DecodeName(msg, start)
  {
    var off: nat, visited: nat, parts := start, 0, [];
    var resume: Option<nat> := None;
    while true
      invariant visited <= MAX_POINTERS
      invariant NameFrom(msg, off, visited, parts, resume) == DecodeName(msg, start)
      decreases MAX_POINTERS - visited, |msg| - off
    {
      if off >= |msg| {
        return Err(Truncated);
      }
      var ln := msg[off];
      if ln == 0 {
        return Ok((Join(parts) + [DOT], if resume.Some? then resume.value else off + 1));
      } else if ln >= 0xC0 {
        if off + 1 >= |msg| {
          return Err(Truncated);
        }
        var ptr := Pointer(ln, msg[off + 1]);
        if ptr >= off {
          return Err(BadPointer);
        }
        if resume.None? {
          resume := Some(off + 2);
        }
        off := ptr;
        visited := visited + 1;
        if visited > MAX_POINTERS {
          return Err(BadPointer);
        }
      } else {
        off := off + 1;
        if off + ln > |msg| {
          return Err(Truncated);
        }
        parts := parts + [msg[off..off + ln]];
        off := off + ln;
      }
    }
  }

  /** Wherever decoding ends, the next offset is inside the message and past the
      place it started from. */
  lemma {:induction false} NextOffsetInside(msg: Text, off: nat, visited: nat, parts: seq<Text>, resume: Option<nat>)
    requires visited <= MAX_POINTERS && NameFrom(msg, off, visited, parts, resume).Ok?
    ensures resume.None? ==> off < NameFrom(msg, off, visited, parts, resume).value.1 <= |msg|
    ensures resume.Some? ==> NameFrom(msg, off, visited, parts, resume).value.1 == resume.value
    decreases MAX_POINTERS - visited, |msg| - off
  {
    var ln := msg[off];
    if ln >= 0xC0 {
      var resume' := if resume.Some? then resume else Some(off + 2);
      NextOffsetInside(msg, Pointer(ln, msg[off + 1]), visited + 1, parts, resume');
    } else if ln != 0 {
      NextOffsetInside(msg, off + 1 + ln, visited, parts + [msg[off + 1..off + 1 + ln]], resume);
    }
  }

  predicate LabelsFit(labels: seq<Text>) {
    forall i :: 0 <= i < |labels| ==> 1 <= |labels[i]| < 0xC0
  }

  lemma LabelAt(msg: Text, off: nat, labels: seq<Text>, rest: Text)
    requires off <= |msg| && labels != [] && |labels[0]| < 0xC0 && msg[off..] == LabelOctets(labels) + rest
    ensures var l := labels[0]; var next := off + 1 + |l|;
            && next <= |msg| && msg[off..off + 1] == [|l|] && msg[off + 1..next] == l
            && msg[next..] == LabelOctets(labels[1..]) + rest
            && off + |LabelOctets(labels)| == next + |LabelOctets(labels[1..])|
  {
    hide LabelOctets;
    LabelOctetsStep(labels);
    var size, more := [|labels[0]|], LabelOctets(labels[1..]);
    Regroup(size, labels[0], more, rest);
    SplitAt(msg, off, size, labels[0], more + rest);
  }

  lemma LabelOctetsStep(labels: seq<Text>)
    requires labels != [] && |labels[0]| < 0xC0
    ensures LabelOctets(labels) == [|labels[0]|] + labels[0] + LabelOctets(labels[1..])
    ensures |LabelOctets(labels)| == 1 + |labels[0]| + |LabelOctets(labels[1..])|
  {
  }

  lemma Regroup(a: Text, b: Text, c: Text, d: Text)
    ensures a + b + c + d == a + b + (c + d)
  {
  }

  /** Slices of a message whose tail is known in three parts. */
  lemma SplitAt(msg: Text, off: nat, a: Text, b: Text, c: Text)
    requires off <= |msg| && msg[off..] == a + b + c
    ensures |msg| == off + |a| + |b| + |c| && msg[off..off + |a|] == a
    ensures msg[off + |a|..off + |a| + |b|] == b && msg[off + |a| + |b|..] == c
  {
    var t, p := msg[off..], |a| + |b|;
    assert msg[off..off + |a|] == t[..|a|];
    assert msg[off + |a|..off + p] == t[|a|..p];
    assert msg[off + p..] == t[p..];
  }

  /** One label read off the message. */
  lemma NameStep(msg: Text, off: nat, parts: seq<Text>, l: Text)
    requires 1 <= |l| < 0xC0 && off + 1 + |l| <= |msg|
    requires msg[off..off + 1] == [|l|] && msg[off + 1..off + 1 + |l|] == l
    ensures NameFrom(msg, off, 0, parts, None) == NameFrom(msg, off + 1 + |l|, 0, parts + [l], None)
  {
    assert msg[off] == msg[off..off + 1][0];
  }

  lemma NameEnd(msg: Text, off: nat, parts: seq<Text>)
    requires off < |msg| && msg[off..off + 1] == [0]
    ensures NameFrom(msg, off, 0, parts, None) == Ok((Join(parts) + [DOT], off + 1))
  {
    assert msg[off] == msg[off..off + 1][0];
  }

  lemma NoLabels(msg: Text, off: nat, rest: Text)
    requires off <= |msg| && msg[off..] == LabelOctets([]) + rest
    ensures off < |msg| && msg[off..off + 1] == [0] && |LabelOctets([])| == 1
  {
    assert msg[off] == msg[off..][0];
  }

  lemma FitsTail(labels: seq<Text>)
    requires labels != []
    ensures LabelsFit(labels) <==> 1 <= |labels[0]| < 0xC0 && LabelsFit(labels[1..])
  {
    if 1 <= |labels[0]| < 0xC0 && LabelsFit(labels[1..]) {
      forall i | 0 <= i < |labels| ensures 1 <= |labels[i]| < 0xC0 {
        if i > 0 {
          assert labels[i] == labels[1..][i - 1];
        }
      }
    }
  }

  lemma {:induction false} NameOfLabels(msg: Text, off: nat, labels: seq<Text>, parts: seq<Text>, rest: Text)
    requires off <= |msg| && msg[off..] == LabelOctets(labels) + rest && LabelsFit(labels)
    ensures NameFrom(msg, off, 0, parts, None) == Ok((Join(parts + labels) + [DOT], off + |LabelOctets(labels)|))
    decreases labels
  {
    hide Join;
    hide NameFrom;
    hide LabelOctets;
    hide LabelsFit;
    if labels == [] {
      NoLabels(msg, off, rest);
      NameEnd(msg, off, parts);
      assert parts + labels == parts;
    } else {
      var l := labels[0];
      FitsTail(labels);
      LabelAt(msg, off, labels, rest);
      NameStep(msg, off, parts, l);
      NameOfLabels(msg, off + 1 + |l|, labels[1..], parts + [l], rest);
      assert (parts + [l]) + labels[1..] == parts + labels;
    }
  }

  /** A name written from its labels reads back as itself, in any message. */
  lemma NameRoundTrip(pre: Text, labels: seq<Text>, rest: Text)
    requires labels != [] && LabelsFit(labels) && forall i :: 0 <= i < |labels| ==> NoDot(labels[i])
    ensures var name := Join(labels) + [DOT];
            && EncodeName(name) == LabelOctets(labels)
            && DecodeName(pre + EncodeName(name) + rest, |pre|) == Ok((name, |pre| + |EncodeName(name)|))
  {
    hide NameFrom;
    hide LabelOctets;
    hide Split;
    SplitOfJoin(labels);
    JoinNonEmpty(labels);
    hide Join;
    var name := Join(labels) + [DOT];
    assert TrimDot(name) == Join(labels);
    var msg := pre + EncodeName(name) + rest;
    assert msg[|pre|..] == LabelOctets(labels) + rest;
    NameOfLabels(msg, |pre|, labels, [], rest);
    assert [] + labels == labels;
  }

  lemma JoinNonEmpty(labels: seq<Text>)
    requires labels != [] && LabelsFit(labels)
    ensures Join(labels) != []
  {
  }

  // ------------------------------------------------ which names read back

  lemma {:induction false} JoinOfSplit(s: Text)
    ensures Join(Split(s)) == s
    ensures forall i :: 0 <= i < |Split(s)| ==> NoDot(Split(s)[i])
  {
    if s != [] {
      var rest := Split(s[1..]);
      JoinOfSplit(s[1..]);
      assert s == [s[0]] + s[1..];
      if s[0] == DOT {
        assert Split(s)[1..] == rest;
      } else {
        assert Split(s)[1..] == rest[1..];
        assert NoDot([s[0]] + rest[0]);
      }
    }
  }

  /** What the labels read so far contribute to the name, the next dot included. */
  function Lead(parts: seq<Text>): Text {
    if parts == [] then [] else Join(parts) + [DOT]
  }

  lemma {:induction false} JoinAppend(parts: seq<Text>, more: seq<Text>)
    requires more != []
    ensures Join(parts + more) == Lead(parts) + Join(more)
  {
    if parts == [] {
      assert parts + more == more;
    } else {
      assert (parts + more)[1..] == parts[1..] + more;
      JoinAppend(parts[1..], more);
    }
  }

  /** However decoding goes on, it appends labels of 1 to 191 octets. */
  lemma {:induction false} OnlyLabelsAreAppended(msg: Text, off: nat, visited: nat, parts: seq<Text>,
                                                 resume: Option<nat>)
    returns (more: seq<Text>)
    requires visited <= MAX_POINTERS && NameFrom(msg, off, visited, parts, resume).Ok?
    ensures LabelsFit(more) && NameFrom(msg, off, visited, parts, resume).value.0 == Join(parts + more) + [DOT]
    decreases MAX_POINTERS - visited, |msg| - off
  {
    hide Join;
    var ln := msg[off];
    if ln == 0 {
      more := [];
      assert parts + more == parts;
    } else if ln >= 0xC0 {
      var resume' := if resume.Some? then resume else Some(off + 2);
      more := OnlyLabelsAreAppended(msg, Pointer(ln, msg[off + 1]), visited + 1, parts, resume');
    } else {
      var l := msg[off + 1..off + 1 + ln];
      var rest := OnlyLabelsAreAppended(msg, off + 1 + ln, visited, parts + [l], resume);
      more := [l] + rest;
      assert (parts + [l]) + rest == parts + more;
    }
  }

  /** Short labels never add up to a name whose next label is long. */
  lemma LongLabelIsMissed(parts: seq<Text>, more: seq<Text>, labels: seq<Text>)
    requires LabelsFit(more) && labels != [] && |labels[0]| >= 0xC0 && NoDot(labels[0])
    ensures Join(parts + more) != Join(parts + labels)
  {
    JoinAppend(parts, labels);
    FirstOfJoin(labels);
    if more == [] {
      assert parts + more == parts;
    } else {
      JoinAppend(parts, more);
      FirstOfJoin(more);
      var lead, n := Lead(parts), |more[0]|;
      assert labels[0][n] in labels[0];
      assert (Join(labels) + [DOT])[n] == (Join(labels) + [DOT])[..|labels[0]|][n] == labels[0][n];
      assert (Join(more) + [DOT])[n] == DOT;
      assert Join(more) == (lead + Join(more))[|lead|..] && Join(labels) == (lead + Join(labels))[|lead|..];
    }
  }

  lemma FirstOfJoin(labels: seq<Text>)
    requires labels != []
    ensures var j, n := Join(labels) + [DOT], |labels[0]|;
            n < |j| && j[..n] == labels[0] && j[n] == DOT
  {
    if |labels| > 1 {
      assert Join(labels) == labels[0] + [DOT] + Join(labels[1..]);
    }
  }

  /** A label that does not fit is never read back. */
  lemma {:induction false} BadLabelIsMisread(msg: Text, off: nat, labels: seq<Text>, parts: seq<Text>, rest: Text)
    requires off <= |msg| && msg[off..] == LabelOctets(labels) + rest && !LabelsFit(labels)
    requires (forall i :: 0 <= i < |labels| ==> NoDot(labels[i])) && (parts != [] || labels != [[]])
    ensures var d := NameFrom(msg, off, 0, parts, None); d.Ok? ==> d.value.0 != Join(parts + labels) + [DOT]
    decreases labels
  {
    hide Join;
    hide NameFrom;
    hide LabelOctets;
    hide LabelsFit;
    assert labels != [] by { NoneFit(); }
    var l := labels[0];
    FitsTail(labels);
    if |l| >= 0xC0 {
      if NameFrom(msg, off, 0, parts, None).Ok? {
        var more := OnlyLabelsAreAppended(msg, off, 0, parts, None);
        LongLabelIsMissed(parts, more, labels);
        TrimmedEqual(Join(parts + more), Join(parts + labels));
      }
    } else {
      LabelAt(msg, off, labels, rest);
      if l == [] {
        NameEnd(msg, off, parts);
        EmptyLabelCounts(parts, labels);
        TrimmedEqual(Join(parts), Join(parts + labels));
      } else {
        NameStep(msg, off, parts, l);
        assert (parts + [l]) + labels[1..] == parts + labels;
        BadLabelIsMisread(msg, off + 1 + |l|, labels[1..], parts + [l], rest);
      }
    }
  }

  lemma NoneFit()
    ensures LabelsFit([])
  {
  }

  lemma EmptyLabelCounts(parts: seq<Text>, labels: seq<Text>)
    requires labels != [] && labels[0] == [] && (parts != [] || labels != [[]])
    ensures Join(parts + labels) != Join(parts)
  {
    JoinAppend(parts, labels);
    if parts == [] {
      assert |labels| > 1;
    }
  }

  lemma TrimmedEqual(a: Text, b: Text)
    ensures a + [DOT] == b + [DOT] ==> a == b
  {
    if a + [DOT] == b + [DOT] {
      assert a == (a + [DOT])[..|a|] && b == (b + [DOT])[..|b|];
    }
  }

  /** The root, or a name that ends in a dot and whose labels have 1 to 191 octets. */
  predicate ReadsBack(name: Text) {
    || name == [DOT]
    || (name != [] && name[|name| - 1] == DOT && LabelsFit(Split(TrimDot(name))))
  }

  /** Wherever a written name stands in a message, it reads back as itself if and
      only if it is one of those. */
  lemma NameReadsBackExactlyWhen(pre: Text, name: Text, rest: Text)
    ensures var d := DecodeName(pre + EncodeName(name) + rest, |pre|);
            d.Ok? && d.value.0 == name <==> ReadsBack(name)
  {
    hide NameFrom;
    hide LabelOctets;
    hide LabelsFit;
    hide Join;
    hide Split;
    var msg := pre + EncodeName(name) + rest;
    var d := DecodeName(msg, |pre|);
    var n := TrimDot(name);
    assert msg[|pre|..] == EncodeName(name) + rest;
    if name == [] || name[|name| - 1] != DOT {
      if d.Ok? {
        var more := OnlyLabelsAreAppended(msg, |pre|, 0, [], None);
      }
    } else if n == [] {
      assert name == [DOT];
      RootReads(msg, |pre|);
    } else {
      var labels := Split(n);
      JoinOfSplit(n);
      assert name == Join(labels) + [DOT];
      if LabelsFit(labels) {
        NameRoundTrip(pre, labels, rest);
      } else {
        assert [] + labels == labels;
        NonEmptyPieces(labels);
        BadLabelIsMisread(msg, |pre|, labels, [], rest);
      }
    }
  }

  lemma RootReads(msg: Text, off: nat)
    requires off < |msg| && msg[off] == 0
    ensures DecodeName(msg, off) == Ok(([DOT], off + 1))
  {
    assert Join([]) + [DOT] == [DOT];
  }

  lemma NonEmptyPieces(labels: seq<Text>)
    requires Join(labels) != []
    ensures labels != [[]]
  {
  }

  // ---------------------------------------------------------------- records

  datatype Record = Record(name: Text, typ: Word16, class_: Word16, ttl: Word32, rdata: Text)

  function EncodeRecord(name: Text, typ: Word16, ttl: Word32, rdata: Text): Text {
    EncodeName(name) + Be16(typ) + Be16(CLASS_IN) + Be32(ttl) + Be16(|rdata| % 0x1_0000) + rdata
  }

  function ParseRecord(msg: Text, start: nat): Result<(Record, nat), Error> {
    match DecodeName(msg, start)
    case Err(e) => Err(e)
    case Ok((name, off)) =>
      if off + 10 > |msg| then Err(Truncated)
      else
        var size := FromBe16(msg[off + 8..off + 10]);
        if off + 10 + size > |msg| then Err(Truncated)
        else Ok((Record(name, FromBe16(msg[off..off + 2]), FromBe16(msg[off + 2..off + 4]),
                        FromBe32(msg[off + 4..off + 8]), msg[off + 10..off + 10 + size]), off + 10 + size))
  }

  function SkipQuestions(msg: Text, off: nat, count: nat): Result<nat, Error>
    decreases count
  {
    if count == 0 then Ok(off)
    else
      match DecodeName(msg, off)
      case Err(e) => Err(e)
      case Ok((_, next)) => SkipQuestions(msg, next + 4, count - 1)
  }

  /** Up to `count` records, stopping quietly at the first malformed one. */
  function Records(msg: Text, off: nat, count: nat): seq<Record>
    decreases count
  {
    if count == 0 then []
    else
      match ParseRecord(msg, off)
      case Err(_) => []
      case Ok((rr, next)) => [rr] + Records(msg, next, count - 1)
  }

  datatype Header = Header(id: Word16, flags: Word16, questions: Word16,
                           answers: Word16, authorities: Word16, additionals: Word16)

  function EncodeHeader(h: Header): (s: Text)
    ensures |s| == 12
  {
    Be16(h.id) + Be16(h.flags) + Be16(h.questions) + Be16(h.answers) + Be16(h.authorities) + Be16(h.additionals)
  }

  function DecodeHeader(s: Text): Header
    requires |s| >= 12
  {
    Header(FromBe16(s[0..2]), FromBe16(s[2..4]), FromBe16(s[4..6]),
           FromBe16(s[6..8]), FromBe16(s[8..10]), FromBe16(s[10..12]))
  }

  function ParseRecords(msg: Text): Result<seq<Record>, Error> {
    if |msg| < 12 then Err(Truncated)
    else
      var h := DecodeHeader(msg);
      match SkipQuestions(msg, 12, h.questions)
      case Err(e) => Err(e)
      case Ok(off) => Ok(Records(msg, off, h.answers + h.authorities + h.additionals))
  }

  /** The source's two loops. */
  method ParseRecordsLoop(msg: Text) returns (r: Result<seq<Record>, Error>)
    ensures r == ParseRecords(msg)
  {
    hide DecodeName;
    hide DecodeHeader;
    hide ParseRecord;
    if |msg| < 12 {
      return Err(Truncated);
    }
    var h := DecodeHeader(msg);
    var off: nat := 12;
    for i := 0 to h.questions
      invariant SkipQuestions(msg, off, h.questions - i) == SkipQuestions(msg, 12, h.questions)
    {
      var n := DecodeNameLoop(msg, off);
      if n.Err? {
        return Err(n.error);
      }
      off := n.value.1 + 4;
    }
    var total := h.answers + h.authorities + h.additionals;
    ghost var first := off;
    var rrs := [];
    for i := 0 to total
      invariant Records(msg, first, total) == rrs + Records(msg, off, total - i)
    {
      var one := ParseRecord(msg, off);
      if one.Err? {
        assert rrs + [] == rrs;
        return Ok(rrs);
      }
      rrs := rrs + [one.value.0];
      off := one.value.1;
    }
    assert rrs + [] == rrs;
    r := Ok(rrs);
  }

  /** A record to send, its name given by labels. */
  datatype Item = Item(labels: seq<Text>, typ: Word16, rdata: Text)

  function NameOf(labels: seq<Text>): Text {
    Join(labels) + [DOT]
  }

  predicate GoodLabels(labels: seq<Text>) {
    && labels != []
    && LabelsFit(labels)
    && forall i :: 0 <= i < |labels| ==> NoDot(labels[i])
  }

  predicate GoodItem(it: Item) {
    GoodLabels(it.labels) && |it.rdata| < 0x1_0000
  }

  function ItemOctets(it: Item): Text {
    EncodeRecord(NameOf(it.labels), it.typ, TTL, it.rdata)
  }

  function ItemRecord(it: Item): Record {
    Record(NameOf(it.labels), it.typ, CLASS_IN, TTL, it.rdata)
  }

  function RecordsOf(items: seq<Item>): (rrs: seq<Record>)
    ensures |rrs| == |items| && forall i :: 0 <= i < |items| ==> rrs[i] == ItemRecord(items[i])
  {
    if items == [] then [] else [ItemRecord(items[0])] + RecordsOf(items[1..])
  }

  function ItemsOctets(items: seq<Item>): Text {
    if items == [] then [] else ItemOctets(items[0]) + ItemsOctets(items[1..])
  }

  /** The fixed part and the payload, at a known place in the message. */
  lemma FixedPart(msg: Text, off: nat, typ: Word16, ttl: Word32, rdata: Text, rest: Text)
    requires off <= |msg| && |rdata| < 0x1_0000
    requires msg[off..] == Be16(typ) + Be16(CLASS_IN) + Be32(ttl) + Be16(|rdata|) + rdata + rest
    ensures off + 10 + |rdata| <= |msg|
    ensures msg[off..off + 2] == Be16(typ) && msg[off + 2..off + 4] == Be16(CLASS_IN)
    ensures msg[off + 4..off + 8] == Be32(ttl) && msg[off + 8..off + 10] == Be16(|rdata|)
    ensures msg[off + 10..off + 10 + |rdata|] == rdata
  {
    hide Be16;
    hide Be32;
    var t := msg[off..];
    assert |msg| == off + |t|;
    assert msg[off..off + 2] == t[..2] == Be16(typ);
    assert msg[off + 2..off + 4] == t[2..4] == Be16(CLASS_IN);
    assert msg[off + 4..off + 8] == t[4..8] == Be32(ttl);
    assert msg[off + 8..off + 10] == t[8..10] == Be16(|rdata|);
    assert msg[off + 10..off + 10 + |rdata|] == t[10..10 + |rdata|] == rdata;
  }

  lemma RecordRoundTrip(pre: Text, it: Item, rest: Text)
    requires GoodItem(it)
    ensures ParseRecord(pre + ItemOctets(it) + rest, |pre|) == Ok((ItemRecord(it), |pre| + |ItemOctets(it)|))
  {
    hide DecodeName;
    hide EncodeName;
    hide LabelOctets;
    hide Join;
    hide Be16;
    hide Be32;
    hide FromBe16;
    hide FromBe32;
    var name := EncodeName(NameOf(it.labels));
    var tail := Be16(it.typ) + Be16(CLASS_IN) + Be32(TTL) + Be16(|it.rdata|) + it.rdata;
    var msg := pre + ItemOctets(it) + rest;
    assert ItemOctets(it) == name + tail;
    assert msg == pre + name + (tail + rest);
    NameRoundTrip(pre, it.labels, tail + rest);
    var off := |pre| + |name|;
    assert msg[off..] == tail + rest;
    FixedPart(msg, off, it.typ, TTL, it.rdata, rest);
  }

  /** Parsing gives back any list of well named records, wherever it stands. */
  lemma {:induction false} RecordsRoundTrip(pre: Text, items: seq<Item>, rest: Text)
    requires forall i :: 0 <= i < |items| ==> GoodItem(items[i])
    ensures Records(pre + ItemsOctets(items) + rest, |pre|, |items|) == RecordsOf(items)
    decreases |items|
  {
    hide ParseRecord;
    hide ItemOctets;
    hide ItemRecord;
    hide GoodItem;
    if items != [] {
      var one := ItemOctets(items[0]);
      var more := ItemsOctets(items[1..]);
      var msg := pre + ItemsOctets(items) + rest;
      assert msg == pre + one + (more + rest) == (pre + one) + more + rest;
      RecordRoundTrip(pre, items[0], more + rest);
      RecordsRoundTrip(pre + one, items[1..], rest);
    }
  }

  // ------------------------------------------------------- stream identifiers

  /** "stream=". */
  const STREAM_KEY: Text := [115, 116, 114, 101, 97, 109, 61]

  function HexDigit(n: int): Byte
    requires 0 <= n < 16
  {
    if n < 10 then 48 + n else 87 + n
  }

  function HexNibble(c: Byte): (r: Option<Byte>)
    ensures r.Some? ==> r.value < 16
  {
    if 48 <= c <= 57 then Some(c - 48)
    else if 97 <= c <= 102 then Some(c - 97 + 10)
    else None
  }

  function Hex(s: Text): (h: Text)
    ensures |h| == 2 * |s|
  {
    if s == [] then [] else [HexDigit(s[0] / 16), HexDigit(s[0] % 16)] + Hex(s[1..])
  }

  function Unhex(h: Text): Option<Text>
    requires |h| % 2 == 0
  {
    if h == [] then Some([])
    else
      match (Octet(h[0], h[1]), Unhex(h[2..]))
      case (Some(b), Some(rest)) => Some([b] + rest)
      case _ => None
  }

  function Octet(hi: Byte, lo: Byte): Option<Byte> {
    match (HexNibble(hi), HexNibble(lo))
    case (Some(h), Some(l)) => Some(16 * h + l)
    case _ => None
  }

  lemma OctetOfDigits(b: Byte)
    ensures Octet(HexDigit(b / 16), HexDigit(b % 16)) == Some(b)
  {
  }

  lemma DigitsOfOctet(hi: Byte, lo: Byte)
    requires Octet(hi, lo).Some?
    ensures var b := Octet(hi, lo).value; HexDigit(b / 16) == hi && HexDigit(b % 16) == lo
  {
    var b, h, l := Octet(hi, lo).value, HexNibble(hi).value, HexNibble(lo).value;
    assert b / 16 == h && b % 16 == l;
  }

  function DecodeStream(h: Text): Option<Text> {
    if |h| != 16 then None else Unhex(h)
  }

  method EncodeStreamLoop(stream: Text) returns (h: Text)
    ensures h == Hex(stream)
  {
    h := [];
    for i := 0 to |stream|
      invariant Hex(stream) == h + Hex(stream[i..])
    {
      assert stream[i..][1..] == stream[i + 1..];
      h := h + [HexDigit(stream[i] / 16), HexDigit(stream[i] % 16)];
    }
  }

  function Glue(out: Text, rest: Option<Text>): Option<Text> {
    if rest.None? then None else Some(out + rest.value)
  }

  lemma UnhexStep(out: Text, h: Text)
    requires h != [] && |h| % 2 == 0
    ensures Octet(h[0], h[1]).None? ==> Unhex(h).None?
    ensures Octet(h[0], h[1]).Some? ==> Glue(out, Unhex(h)) == Glue(out + [Octet(h[0], h[1]).value], Unhex(h[2..]))
  {
    hide Octet;
    if Octet(h[0], h[1]).Some? && Unhex(h[2..]).Some? {
      var b, rest := Octet(h[0], h[1]).value, Unhex(h[2..]).value;
      assert out + ([b] + rest) == (out + [b]) + rest;
    }
  }

  lemma GlueNothing(rest: Option<Text>)
    ensures Glue([], rest) == rest
  {
    if rest.Some? {
      assert [] + rest.value == rest.value;
    }
  }

  method DecodeStreamLoop(h: Text) returns (r: Option<Text>)
    ensures r == DecodeStream(h)
  {
    if |h| != 16 {
      return None;
    }
    hide Unhex;
    hide Octet;
    var out: Text := [];
    assert h[0..] == h;
    GlueNothing(Unhex(h));
    for i := 0 to 8
      invariant Unhex(h) == Glue(out, Unhex(h[2 * i..]))
    {
      UnhexStep(out, h[2 * i..]);
      assert h[2 * i..][2..] == h[2 * (i + 1)..];
      var b := Octet(h[2 * i], h[2 * i + 1]);
      if b.None? {
        return None;
      }
      out := out + [b.value];
    }
    assert h[16..] == [];
    UnhexNothing();
    assert out + [] == out;
    r := Some(out);
  }

  lemma UnhexNothing()
    ensures Unhex([]) == Some([])
  {
  }

  lemma {:induction false} UnhexOfHex(s: Text)
    ensures Unhex(Hex(s)) == Some(s)
  {
    hide Octet;
    hide HexDigit;
    if s != [] {
      var h := Hex(s);
      assert h[2..] == Hex(s[1..]);
      UnhexOfHex(s[1..]);
      assert h[0] == HexDigit(s[0] / 16) && h[1] == HexDigit(s[0] % 16);
      OctetOfDigits(s[0]);
      assert [s[0]] + s[1..] == s;
    }
  }

  /** Lower-case only: no two texts name the same stream. */
  lemma {:induction false} HexOfUnhex(h: Text)
    requires |h| % 2 == 0 && Unhex(h).Some?
    ensures Hex(Unhex(h).value) == h
  {
    hide Octet;
    hide HexDigit;
    if h != [] {
      HexOfUnhex(h[2..]);
      DigitsOfOctet(h[0], h[1]);
      assert h == [h[0], h[1]] + h[2..];
      var v := Unhex(h).value;
      assert v[0] == Octet(h[0], h[1]).value && v[1..] == Unhex(h[2..]).value;
    }
  }

  lemma {:induction false} HexHasNoDot(s: Text)
    ensures NoDot(Hex(s))
  {
    if s != [] {
      HexHasNoDot(s[1..]);
    }
  }

  // --------------------------------------------------------------- services

  function Decimal(n: nat): Text {
    if n < 10 then [48 + n] else Decimal(n / 10) + [48 + n % 10]
  }

  const COLON: Byte := 58

  /** Four decimal octets with dots between them. */
  function IpText(ip: Text): Text
    requires |ip| == 4
  {
    Join([Decimal(ip[0]), Decimal(ip[1]), Decimal(ip[2]), Decimal(ip[3])])
  }

  function AddrText(ip: Text, port: Word16): Text
    requires |ip| == 4
  {
    IpText(ip) + [COLON] + Decimal(port)
  }

  datatype Service = Service(instance: Text, stream: Text, addr: Text)

  /** What the records say, indexed by name. */
  datatype Tables = Tables(targets: set<Text>, ports: map<Text, Word16>, hosts: map<Text, Text>,
                           addresses: map<Text, Text>, streams: map<Text, Text>)

  const SERVICE: seq<Text> := [RCP, UDP, LOCAL]

  predicate EndsWith(s: Text, suffix: Text) {
    |suffix| <= |s| && s[|s| - |suffix|..] == suffix
  }

  predicate StartsWith(s: Text, prefix: Text) {
    |prefix| <= |s| && s[..|prefix|] == prefix
  }

  /** The stream named by one TXT string, if any. */
  function KeyValue(kv: Text): Option<Text> {
    if StartsWith(kv, STREAM_KEY) then DecodeStream(kv[|STREAM_KEY|..]) else None
  }

  /** The last stream the strings of a TXT payload name, or `seen`. */
  function TxtStream(rdata: Text, off: nat, seen: Option<Text>): Option<Text>
    decreases |rdata| - off
  {
    if off >= |rdata| || off + 1 + rdata[off] > |rdata| then seen
    else
      var next := off + 1 + rdata[off];
      var kv := KeyValue(rdata[off + 1..next]);
      TxtStream(rdata, next, if kv.Some? then kv else seen)
  }

  function Absorb(t: Tables, rr: Record): Tables {
    if rr.typ == TYPE_PTR then
      var target := DecodeName(rr.rdata + [0], 0);
      if EndsWith(rr.name, NameOf(SERVICE)) && target.Ok? then t.(targets := t.targets + {target.value.0}) else t
    else if rr.typ == TYPE_SRV then
      if |rr.rdata| < 7 then t
      else
        var host := DecodeName(rr.rdata[6..] + [0], 0);
        if host.Err? then t
        else t.(ports := t.ports[rr.name := FromBe16(rr.rdata[4..6])], hosts := t.hosts[rr.name := host.value.0])
    else if rr.typ == TYPE_TXT then
      var stream := TxtStream(rr.rdata, 0, None);
      if stream.Some? then t.(streams := t.streams[rr.name := stream.value]) else t
    else if rr.typ == TYPE_A && |rr.rdata| == 4 then
      t.(addresses := t.addresses[rr.name := IpText(rr.rdata)])
    else t
  }

  const EMPTY := Tables({}, map[], map[], map[], map[])

  function Collect(rrs: seq<Record>): Tables {
    if rrs == [] then EMPTY else Absorb(Collect(rrs[..|rrs| - 1]), rrs[|rrs| - 1])
  }

  predicate Complete(t: Tables, inst: Text) {
    && inst in t.targets
    && inst in t.hosts
    && inst in t.ports
    && t.hosts[inst] in t.addresses
    && inst in t.streams
  }

  function ServiceOf(t: Tables, inst: Text): Service
    requires Complete(t, inst)
  {
    Service(inst, t.streams[inst], t.addresses[t.hosts[inst]] + [COLON] + Decimal(t.ports[inst]))
  }

  function Services(t: Tables): set<Service> {
    set inst | inst in t.targets && Complete(t, inst) :: ServiceOf(t, inst)
  }

  /** The TXT loop. */
  method TxtLoop(rdata: Text) returns (stream: Option<Text>)
    ensures stream == TxtStream(rdata, 0, None)
  {
    var off: nat := 0;
    stream := None;
    while off < |rdata|
      invariant TxtStream(rdata, off, stream) == TxtStream(rdata, 0, None)
      decreases |rdata| - off
    {
      var l := rdata[off];
      off := off + 1;
      if off + l > |rdata| {
        break;
      }
      var kv := rdata[off..off + l];
      off := off + l;
      if StartsWith(kv, STREAM_KEY) {
        var found := DecodeStreamLoop(kv[|STREAM_KEY|..]);
        if found.Some? {
          stream := found;
        }
      }
    }
  }

  /** The two loops of the source. The order of the result is that of a Go map,
      so only its members and its length are promised. */
  method ExtractServices(rrs: seq<Record>) returns (out: seq<Service>)
    ensures forall s :: s in out <==> s in Services(Collect(rrs))
    ensures |out| == |Services(Collect(rrs))|
  {
    hide DecodeName;
    var t := EMPTY;
    for i := 0 to |rrs|
      invariant t == Collect(rrs[..i])
    {
      assert rrs[..i + 1][..i] == rrs[..i];
      var rr := rrs[i];
      if rr.typ == TYPE_PTR {
        if EndsWith(rr.name, NameOf(SERVICE)) {
          var target := DecodeNameLoop(rr.rdata + [0], 0);
          if target.Ok? {
            t := t.(targets := t.targets + {target.value.0});
          }
        }
      } else if rr.typ == TYPE_SRV {
        if |rr.rdata| >= 7 {
          var host := DecodeNameLoop(rr.rdata[6..] + [0], 0);
          if host.Ok? {
            t := t.(ports := t.ports[rr.name := FromBe16(rr.rdata[4..6])], hosts := t.hosts[rr.name := host.value.0]);
          }
        }
      } else if rr.typ == TYPE_TXT {
        var stream := TxtLoop(rr.rdata);
        if stream.Some? {
          t := t.(streams := t.streams[rr.name := stream.value]);
        }
      } else if rr.typ == TYPE_A {
        if |rr.rdata| == 4 {
          t := t.(addresses := t.addresses[rr.name := IpText(rr.rdata)]);
        }
      }
    }
    assert rrs[..|rrs|] == rrs;
    out := ListServices(t);
  }

  method ListServices(t: Tables) returns (out: seq<Service>)
    ensures forall s :: s in out <==> s in Services(t)
    ensures |out| == |Services(t)|
  {
    out := [];
    var todo := t.targets;
    ghost var done: set<Service> := {};
    while todo != {}
      invariant todo <= t.targets
      invariant forall s :: s in out <==> s in done
      invariant |out| == |done|
      invariant done == set inst | inst in t.targets && inst !in todo && Complete(t, inst) :: ServiceOf(t, inst)
      decreases |todo|
    {
      var inst :| inst in todo;
      todo := todo - {inst};
      if inst !in t.hosts || inst !in t.ports || t.hosts[inst] !in t.addresses || inst !in t.streams {
        continue;
      }
      var s := ServiceOf(t, inst);
      assert s !in done;
      out := out + [s];
      done := done + {s};
    }
    assert done == Services(t);
  }

  // ----------------------------------------------------------- announcement

  function ServerItems(stream: Text, ip: Text, port: Word16): seq<Item> {
    ItemsFor(Hex(stream), ip, port)
  }

  /** PTR, SRV and TXT answers and an A record, for a server of that hex name. */
  function ItemsFor(hex: Text, ip: Text, port: Word16): seq<Item> {
    var inst := [hex] + SERVICE;
    var host := [hex, LOCAL];
    var kv := STREAM_KEY + hex;
    [Item(SERVICE, TYPE_PTR, EncodeName(NameOf(inst))),
     Item(inst, TYPE_SRV, Be16(0) + Be16(0) + Be16(port) + EncodeName(NameOf(host))),
     Item(inst, TYPE_TXT, [|kv| % 0x100] + kv),
     Item(host, TYPE_A, ip)]
  }

  /** The packet an announcer builds once, for its stream and address. */
  function Announcement(stream: Text, ip: Text, port: Word16): Text
    requires |stream| == 8 && |ip| == 4
  {
    EncodeHeader(Header(0, FLAG_ANSWER, 0, 3, 0, 1)) + ItemsOctets(ServerItems(stream, ip, port))
  }

  /** The announcer builds it record by record. */
  method BuildAnnouncement(stream: Text, ip: Text, port: Word16) returns (buf: Text)
    requires |stream| == 8 && |ip| == 4
    ensures buf == Announcement(stream, ip, port)
  {
    hide ItemOctets;
    hide EncodeHeader;
    hide EncodeName;
    hide Hex;
    hide Join;
    var hex := EncodeStreamLoop(stream);
    var items := ItemsFor(hex, ip, port);
    buf := EncodeHeader(Header(0, FLAG_ANSWER, 0, 3, 0, 1));
    ghost var head := buf;
    for i := 0 to 4
      invariant head + ItemsOctets(items) == buf + ItemsOctets(items[i..])
    {
      assert items[i..][1..] == items[i + 1..];
      buf := buf + ItemOctets(items[i]);
    }
    assert items[4..] == [];
  }

  lemma {:induction false} GoodServerItems(stream: Text, ip: Text, port: Word16)
    requires |stream| == 8 && |ip| == 4
    ensures GoodLabels(SERVICE) && GoodLabels([Hex(stream)] + SERVICE) && GoodLabels([Hex(stream), LOCAL])
    ensures forall i :: 0 <= i < 4 ==> GoodItem(ServerItems(stream, ip, port)[i])
  {
    hide Hex;
    hide EncodeName;
    hide Join;
    hide Be16;
    var hex := Hex(stream);
    HexHasNoDot(stream);
    assert |hex| == 16;
    assert NoDot(RCP) && NoDot(UDP) && NoDot(LOCAL);
    var inst, host := [hex] + SERVICE, [hex, LOCAL];
    assert inst == [hex, RCP, UDP, LOCAL];
    NameRoundTrip([], inst, []);
    NameRoundTrip([], host, []);
    assert |LabelOctets(inst)| <= 100 && |LabelOctets(host)| <= 100 by {
      LabelOctetsBound(inst, 16);
      LabelOctetsBound(host, 16);
    }
  }

  lemma {:induction false} LabelOctetsBound(labels: seq<Text>, n: nat)
    requires forall i :: 0 <= i < |labels| ==> |labels[i]| <= n
    ensures |LabelOctets(labels)| <= 1 + |labels| * (n + 1)
    decreases |labels|
  {
    if labels != [] {
      assert |LabelOctets(labels)| == 1 + |labels[0]| + |LabelOctets(labels[1..])|;
      LabelOctetsBound(labels[1..], n);
      hide LabelOctets;
      assert (|labels| - 1) * (n + 1) + (n + 1) == |labels| * (n + 1);
    }
  }

  /** A name followed by more octets, decoded at the front of its own buffer. */
  lemma NameAlone(labels: seq<Text>, rest: Text)
    requires GoodLabels(labels)
    ensures var d := DecodeName(EncodeName(NameOf(labels)) + rest, 0); d.Ok? && d.value.0 == NameOf(labels)
  {
    hide DecodeName;
    hide EncodeName;
    NameRoundTrip([], labels, rest);
    assert [] + EncodeName(NameOf(labels)) + rest == EncodeName(NameOf(labels)) + rest;
  }

  lemma TxtOfKeyValue(stream: Text)
    requires |stream| == 8
    ensures var kv := STREAM_KEY + Hex(stream); TxtStream([|kv| % 0x100] + kv, 0, None) == Some(stream)
  {
    hide Hex;
    hide Unhex;
    var hex := Hex(stream);
    var kv := STREAM_KEY + hex;
    var rdata := [23] + kv;
    assert |kv| == 23;
    assert rdata[1..24] == kv;
    assert kv[..7] == STREAM_KEY && kv[7..] == hex;
    UnhexOfHex(stream);
    assert KeyValue(kv) == Some(stream);
  }

  lemma HeaderRoundTrip(h: Header, rest: Text)
    ensures DecodeHeader(EncodeHeader(h) + rest) == h
  {
    hide Be16;
    hide FromBe16;
    var s := EncodeHeader(h) + rest;
    assert s[0..2] == Be16(h.id) && s[2..4] == Be16(h.flags) && s[4..6] == Be16(h.questions);
    assert s[6..8] == Be16(h.answers) && s[8..10] == Be16(h.authorities) && s[10..12] == Be16(h.additionals);
  }

  lemma RecordsToTheEnd(pre: Text, items: seq<Item>)
    requires forall i :: 0 <= i < |items| ==> GoodItem(items[i])
    ensures Records(pre + ItemsOctets(items), |pre|, |items|) == RecordsOf(items)
  {
    hide Records;
    hide RecordsOf;
    hide ItemsOctets;
    hide GoodItem;
    assert pre + ItemsOctets(items) + [] == pre + ItemsOctets(items);
    RecordsRoundTrip(pre, items, []);
  }

  lemma NoQuestions(msg: Text, off: nat)
    ensures SkipQuestions(msg, off, 0) == Ok(off)
  {
  }

  /** A packet without questions parses to the records written into it. */
  lemma PacketRoundTrip(h: Header, items: seq<Item>)
    requires h.questions == 0 && h.answers + h.authorities + h.additionals == |items|
    requires forall i :: 0 <= i < |items| ==> GoodItem(items[i])
    ensures ParseRecords(EncodeHeader(h) + ItemsOctets(items)) == Ok(RecordsOf(items))
  {
    hide EncodeHeader;
    hide DecodeHeader;
    hide ItemsOctets;
    hide Records;
    hide RecordsOf;
    hide GoodItem;
    hide ItemRecord;
    var pre := EncodeHeader(h);
    HeaderRoundTrip(h, ItemsOctets(items));
    RecordsToTheEnd(pre, items);
    NoQuestions(pre + ItemsOctets(items), 12);
    hide SkipQuestions;
  }

  lemma AbsorbServerItems(stream: Text, ip: Text, port: Word16, t: Tables)
    requires |stream| == 8 && |ip| == 4
    ensures var items := ServerItems(stream, ip, port);
            var inst, host := NameOf([Hex(stream)] + SERVICE), NameOf([Hex(stream), LOCAL]);
            && Absorb(t, ItemRecord(items[0])) == t.(targets := t.targets + {inst})
            && Absorb(t, ItemRecord(items[1])) == t.(ports := t.ports[inst := port], hosts := t.hosts[inst := host])
            && Absorb(t, ItemRecord(items[2])) == t.(streams := t.streams[inst := stream])
            && Absorb(t, ItemRecord(items[3])) == t.(addresses := t.addresses[host := IpText(ip)])
  {
    hide DecodeName;
    hide EncodeName;
    hide TxtStream;
    hide Be16;
    hide Hex;
    hide Join;
    GoodServerItems(stream, ip, port);
    var inst, host := [Hex(stream)] + SERVICE, [Hex(stream), LOCAL];
    NameAlone(inst, [0]);
    NameAlone(host, [0]);
    TxtOfKeyValue(stream);
    var srv := ServerItems(stream, ip, port)[1].rdata;
    assert srv[4..6] == Be16(port) && srv[6..] == EncodeName(NameOf(host));
    assert |srv| >= 7 by {
      EncodedNameNonEmpty(NameOf(host));
    }
  }

  lemma EncodedNameNonEmpty(name: Text)
    ensures |EncodeName(name)| >= 1
  {
    hide Split;
  }

  lemma CollectLast(rrs: seq<Record>, rr: Record)
    ensures Collect(rrs + [rr]) == Absorb(Collect(rrs), rr)
  {
    hide Absorb;
    assert (rrs + [rr])[..|rrs|] == rrs;
  }

  /** An announcement parses to its four records and yields exactly one service:
      the announced stream at the announced address and port. */
  lemma AnnouncementIsFound(stream: Text, ip: Text, port: Word16)
    requires |stream| == 8 && |ip| == 4
    ensures var rrs := ParseRecords(Announcement(stream, ip, port));
            && rrs.Ok?
            && Services(Collect(rrs.value)) == {Service(NameOf([Hex(stream)] + SERVICE), stream, AddrText(ip, port))}
  {
    hide ParseRecords;
    hide ItemRecord;
    hide Absorb;
    hide NameOf;
    hide Hex;
    hide EncodeName;
    hide ItemsOctets;
    hide GoodItem;
    hide Be16;
    var items := ServerItems(stream, ip, port);
    GoodServerItems(stream, ip, port);
    PacketRoundTrip(Header(0, FLAG_ANSWER, 0, 3, 0, 1), items);
    var r0, r1, r2, r3 := ItemRecord(items[0]), ItemRecord(items[1]), ItemRecord(items[2]), ItemRecord(items[3]);
    assert ParseRecords(Announcement(stream, ip, port)).value == [r0] + [r1] + [r2] + [r3];
    var t0 := Collect([r0]);
    var t1 := Collect([r0] + [r1]);
    var t2 := Collect([r0] + [r1] + [r2]);
    assert [] + [r0] == [r0];
    CollectLast([], r0);
    CollectLast([r0], r1);
    CollectLast([r0] + [r1], r2);
    CollectLast([r0] + [r1] + [r2], r3);
    AbsorbServerItems(stream, ip, port, EMPTY);
    AbsorbServerItems(stream, ip, port, t0);
    AbsorbServerItems(stream, ip, port, t1);
    AbsorbServerItems(stream, ip, port, t2);
  }

  // --------------------------------------------------- the address as text

  lemma {:induction false} DecimalIsDigits(n: nat)
    ensures DOT !in Decimal(n) && COLON !in Decimal(n)
  {
    if n >= 10 {
      DecimalIsDigits(n / 10);
    }
  }

  function Undecimal(s: Text): int {
    if s == [] then 0 else Undecimal(s[..|s| - 1]) * 10 + s[|s| - 1] - 48
  }

  lemma {:induction false} UndecimalOfDecimal(n: nat)
    ensures Undecimal(Decimal(n)) == n
  {
    var d := Decimal(n);
    if n >= 10 {
      UndecimalOfDecimal(n / 10);
      assert d[..|d| - 1] == Decimal(n / 10);
    } else {
      assert d[..0] == [];
    }
  }

  lemma ColonSplits(a: Text, b: Text, c: Text, d: Text)
    requires a + [COLON] + b == c + [COLON] + d && COLON !in a && COLON !in c
    ensures a == c && b == d
  {
    var s := a + [COLON] + b;
    assert s[|a|] == COLON && s[|c|] == COLON;
    assert forall i :: 0 <= i < |a| ==> s[i] == a[i] && a[i] in a;
    assert forall i :: 0 <= i < |c| ==> s[i] == c[i] && c[i] in c;
    assert s[..|a|] == a && s[..|c|] == c;
    assert s[|a| + 1..] == b && s[|c| + 1..] == d;
  }

  lemma {:induction false} JoinHasNoColon(labels: seq<Text>)
    requires forall i :: 0 <= i < |labels| ==> COLON !in labels[i]
    ensures COLON !in Join(labels)
  {
    if |labels| > 1 {
      JoinHasNoColon(labels[1..]);
    }
  }

  lemma IpHasNoColon(ip: Text)
    requires |ip| == 4
    ensures COLON !in IpText(ip)
  {
    hide Decimal;
    DecimalIsDigits(ip[0]);
    DecimalIsDigits(ip[1]);
    DecimalIsDigits(ip[2]);
    DecimalIsDigits(ip[3]);
    JoinHasNoColon([Decimal(ip[0]), Decimal(ip[1]), Decimal(ip[2]), Decimal(ip[3])]);
  }

  /** The text names one address and one port only. */
  lemma AddrTextInjective(ip: Text, port: Word16, ip': Text, port': Word16)
    requires |ip| == 4 && |ip'| == 4 && AddrText(ip, port) == AddrText(ip', port')
    ensures ip == ip' && port == port'
  {
    hide Decimal;
    hide Undecimal;
    hide Join;
    IpHasNoColon(ip);
    IpHasNoColon(ip');
    ColonSplits(IpText(ip), Decimal(port), IpText(ip'), Decimal(port'));
    UndecimalOfDecimal(port);
    UndecimalOfDecimal(port');
    var p := [Decimal(ip[0]), Decimal(ip[1]), Decimal(ip[2]), Decimal(ip[3])];
    var p' := [Decimal(ip'[0]), Decimal(ip'[1]), Decimal(ip'[2]), Decimal(ip'[3])];
    forall k | 0 <= k < 4 ensures NoDot(p[k]) && NoDot(p'[k]) {
      DecimalIsDigits(ip[k]);
      DecimalIsDigits(ip'[k]);
    }
    SplitOfJoin(p);
    SplitOfJoin(p');
    forall k | 0 <= k < 4 ensures ip[k] == ip'[k] {
      assert p[k] == p'[k];
      UndecimalOfDecimal(ip[k]);
      UndecimalOfDecimal(ip'[k]);
    }
  }

  // ------------------------------------------------------------- provenance

  ghost predicate NamesTarget(rr: Record, inst: Text) {
    && rr.typ == TYPE_PTR
    && EndsWith(rr.name, NameOf(SERVICE))
    && DecodeName(rr.rdata + [0], 0).Ok?
    && DecodeName(rr.rdata + [0], 0).value.0 == inst
  }

  ghost predicate Locates(rr: Record, inst: Text, host: Text, port: Word16) {
    && rr.typ == TYPE_SRV
    && rr.name == inst
    && |rr.rdata| >= 7
    && FromBe16(rr.rdata[4..6]) == port
    && DecodeName(rr.rdata[6..] + [0], 0).Ok?
    && DecodeName(rr.rdata[6..] + [0], 0).value.0 == host
  }

  ghost predicate Identifies(rr: Record, inst: Text, stream: Text) {
    rr.typ == TYPE_TXT && rr.name == inst && TxtStream(rr.rdata, 0, None) == Some(stream)
  }

  ghost predicate Addresses(rr: Record, host: Text, ip: Text) {
    rr.typ == TYPE_A && rr.name == host && |rr.rdata| == 4 && IpText(rr.rdata) == ip
  }

  ghost predicate TargetsBacked(targets: set<Text>, rrs: seq<Record>) {
    forall inst :: inst in targets ==> exists rr :: rr in rrs && NamesTarget(rr, inst)
  }

  ghost predicate LocationsBacked(ports: map<Text, Word16>, hosts: map<Text, Text>, rrs: seq<Record>) {
    && ports.Keys == hosts.Keys
    && forall inst :: inst in hosts ==> exists rr :: rr in rrs && Locates(rr, inst, hosts[inst], ports[inst])
  }

  ghost predicate StreamsBacked(streams: map<Text, Text>, rrs: seq<Record>) {
    forall inst :: inst in streams ==> exists rr :: rr in rrs && Identifies(rr, inst, streams[inst])
  }

  ghost predicate AddressesBacked(addresses: map<Text, Text>, rrs: seq<Record>) {
    forall host :: host in addresses ==> exists rr :: rr in rrs && Addresses(rr, host, addresses[host])
  }

  /** Each entry of the tables comes from a record. */
  ghost predicate Backed(t: Tables, rrs: seq<Record>) {
    && TargetsBacked(t.targets, rrs) && LocationsBacked(t.ports, t.hosts, rrs)
    && StreamsBacked(t.streams, rrs) && AddressesBacked(t.addresses, rrs)
  }

  lemma BackedByMore(t: Tables, rrs: seq<Record>, rr: Record)
    requires Backed(t, rrs)
    ensures Backed(t, rrs + [rr])
  {
    hide NamesTarget;
    hide Locates;
    hide Identifies;
    hide Addresses;
    assert forall x :: x in rrs ==> x in rrs + [rr];
  }

  lemma AbsorbBacked(t: Tables, rrs: seq<Record>, rr: Record)
    requires Backed(t, rrs)
    ensures Backed(Absorb(t, rr), rrs + [rr])
  {
    hide FromBe16;
    hide DecodeName;
    hide TxtStream;
    hide IpText;
    hide NameOf;
    hide EndsWith;
    BackedByMore(t, rrs, rr);
    var all, t' := rrs + [rr], Absorb(t, rr);
    assert rr in all;
    if rr.typ == TYPE_PTR {
      hide LocationsBacked;
      hide StreamsBacked;
      hide AddressesBacked;
      assert forall inst :: inst in t'.targets ==> inst in t.targets || NamesTarget(rr, inst);
    } else if rr.typ == TYPE_SRV {
      hide TargetsBacked;
      hide StreamsBacked;
      hide AddressesBacked;
      assert t' == t || Locates(rr, rr.name, t'.hosts[rr.name], t'.ports[rr.name]);
    } else if rr.typ == TYPE_TXT {
      hide TargetsBacked;
      hide LocationsBacked;
      hide AddressesBacked;
      assert t' == t || Identifies(rr, rr.name, t'.streams[rr.name]);
    } else if rr.typ == TYPE_A {
      hide TargetsBacked;
      hide LocationsBacked;
      hide StreamsBacked;
      assert t' == t || Addresses(rr, rr.name, t'.addresses[rr.name]);
    }
  }

  lemma {:induction false} CollectBacked(rrs: seq<Record>)
    ensures Backed(Collect(rrs), rrs)
  {
    hide Absorb;
    if rrs != [] {
      var n := |rrs| - 1;
      CollectBacked(rrs[..n]);
      assert rrs == rrs[..n] + [rrs[n]];
      hide Backed;
      AbsorbBacked(Collect(rrs[..n]), rrs[..n], rrs[n]);
    }
  }

  /** Whatever the packet, a service comes only from four records that agree on
      its instance and host. */
  lemma ServicesAreBacked(rrs: seq<Record>, s: Service)
    requires s in Services(Collect(rrs))
    ensures exists host, ptr, srv, txt, a, ip, port: Word16 ::
              && ptr in rrs && NamesTarget(ptr, s.instance)
              && srv in rrs && Locates(srv, s.instance, host, port)
              && txt in rrs && Identifies(txt, s.instance, s.stream)
              && a in rrs && Addresses(a, host, ip)
              && s.addr == ip + [COLON] + Decimal(port)
  {
    hide Collect;
    hide Locates;
    hide NamesTarget;
    hide Identifies;
    hide Addresses;
    CollectBacked(rrs);
    var t := Collect(rrs);
    var host := t.hosts[s.instance];
    var ptr :| ptr in rrs && NamesTarget(ptr, s.instance);
    var port, ip := t.ports[s.instance], t.addresses[host];
    var srv :| srv in rrs && Locates(srv, s.instance, host, port);
    var txt :| txt in rrs && Identifies(txt, s.instance, s.stream);
    var a :| a in rrs && Addresses(a, host, ip);
  }
}
