/** What the DNS reader makes of compressed names, questions and TXT strings. */
module MdnsLaws {
  import opened Outcomes
  import opened Mdns

  // ------------------------------------------------------------- TXT strings

  /** The length-prefixed strings of a payload, up to the first that overruns. */
  function Strings(rdata: Text, off: nat): seq<Text>
    decreases |rdata| - off
  {
    if off >= |rdata| || off + 1 + rdata[off] > |rdata| then []
    else [rdata[off + 1..off + 1 + rdata[off]]] + Strings(rdata, off + 1 + rdata[off])
  }

  /** `kv` is "stream=" and the sixteen lower-case digits of `stream`. */
  predicate Says(kv: Text, stream: Text) {
    |stream| == 8 && kv == [115, 116, 114, 101, 97, 109, 61] + Hex(stream)
  }

  lemma KeyValueSays(kv: Text, stream: Text)
    ensures KeyValue(kv) == Some(stream) <==> Says(kv, stream)
  {
    hide Hex;
    hide Unhex;
    if KeyValue(kv) == Some(stream) {
      HexOfUnhex(kv[7..]);
      assert kv == kv[..7] + kv[7..];
    }
    if Says(kv, stream) {
      assert kv[..7] == STREAM_KEY && kv[7..] == Hex(stream);
      UnhexOfHex(stream);
    }
  }

  /** String `i` names `stream`, and none after it names any. */
  ghost predicate LatestSays(ss: seq<Text>, i: nat, stream: Text) {
    i < |ss| && Says(ss[i], stream) && forall j, x :: i < j < |ss| ==> !Says(ss[j], x)
  }

  ghost predicate NoneSays(ss: seq<Text>) {
    forall j, x :: 0 <= j < |ss| ==> !Says(ss[j], x)
  }

  lemma {:induction false} LatestString(rdata: Text, off: nat, seen: Option<Text>, stream: Text)
    ensures NoneSays(Strings(rdata, off)) ==> TxtStream(rdata, off, seen) == seen
    ensures (exists i :: LatestSays(Strings(rdata, off), i, stream)) ==> TxtStream(rdata, off, seen) == Some(stream)
    ensures TxtStream(rdata, off, seen) == Some(stream) ==>
            || (NoneSays(Strings(rdata, off)) && seen == Some(stream))
            || exists i :: LatestSays(Strings(rdata, off), i, stream)
    decreases |rdata| - off
  {
    hide Says;
    hide KeyValue;
    if off < |rdata| && off + 1 + rdata[off] <= |rdata| {
      var next := off + 1 + rdata[off];
      var s, ss := rdata[off + 1..next], Strings(rdata, next);
      var kv := KeyValue(s);
      forall x ensures kv == Some(x) <==> Says(s, x) {
        KeyValueSays(s, x);
      }
      LatestString(rdata, next, if kv.Some? then kv else seen, stream);
      assert Strings(rdata, off) == [s] + ss;
      FrontSays(s, ss, stream);
    }
  }

  /** Putting one string in front. */
  lemma FrontSays(s: Text, ss: seq<Text>, stream: Text)
    ensures NoneSays([s] + ss) <==> NoneSays(ss) && forall x :: !Says(s, x)
    ensures (exists i :: LatestSays([s] + ss, i, stream)) <==>
            (exists i :: LatestSays(ss, i, stream)) || (NoneSays(ss) && Says(s, stream))
  {
    hide Says;
    var all := [s] + ss;
    assert all[0] == s && forall j :: 0 <= j < |ss| ==> all[j + 1] == ss[j];
    assert forall j :: 1 <= j < |all| ==> all[j] == ss[j - 1];
    if i: nat :| LatestSays(all, i, stream) {
      if i > 0 {
        assert LatestSays(ss, i - 1, stream);
      } else {
        forall j, x | 0 <= j < |ss| ensures !Says(ss[j], x) {
          assert all[j + 1] == ss[j];
        }
      }
    }
    if i: nat :| LatestSays(ss, i, stream) {
      assert LatestSays(all, i + 1, stream);
    }
    if NoneSays(ss) && Says(s, stream) {
      assert LatestSays(all, 0, stream);
    }
    if NoneSays(all) {
      assert forall x :: !Says(all[0], x);
      forall j, x | 0 <= j < |ss| ensures !Says(ss[j], x) {
        assert all[j + 1] == ss[j];
      }
    }
  }

  /** A TXT record names a stream exactly when some string of it says so and no
      later one names another. */
  lemma TxtNamesLatest(rdata: Text, stream: Text)
    ensures TxtStream(rdata, 0, None) == Some(stream) <==> exists i :: LatestSays(Strings(rdata, 0), i, stream)
  {
    hide TxtStream;
    LatestString(rdata, 0, None, stream);
  }

  // ------------------------------------------------------------ which service

  /** A PTR record counts exactly when its name ends in "_rcp._udp.local." and its
      payload reads as a name: that name becomes an instance. */
  lemma TargetsOfTheService(rr: Record, inst: Text)
    ensures NamesTarget(rr, inst) <==>
            && rr.typ == 12 && |rr.name| >= 16
            && rr.name[|rr.name| - 16..] == [95, 114, 99, 112, 46, 95, 117, 100, 112, 46, 108, 111, 99, 97, 108, 46]
            && DecodeName(rr.rdata + [0], 0).Ok? && DecodeName(rr.rdata + [0], 0).value.0 == inst
  {
    hide DecodeName;
    ServiceName();
    hide NameOf;
  }

  lemma ServiceName()
    ensures NameOf(SERVICE) == [95, 114, 99, 112, 46, 95, 117, 100, 112, 46, 108, 111, 99, 97, 108, 46]
  {
    var l2, l3 := [UDP, LOCAL], [LOCAL];
    assert SERVICE[1..] == l2 && l2[1..] == l3;
    assert Join(l3) == LOCAL;
    assert Join(l2) == UDP + [DOT] + LOCAL;
    assert Join(SERVICE) == RCP + [DOT] + (UDP + [DOT] + LOCAL);
  }

  // --------------------------------------------------------- compressed names

  /** Labels, then a pointer to a name written earlier, read as both together; the
      message goes on after the pointer. */
  lemma CompressedNameReads(msg: Text, at: nat, front: seq<Text>, back: seq<Text>, ptr: nat)
    requires GoodLabels(back) && LabelsFit(front)
    requires ptr < at <= |msg| && ptr < 0x4000
    requires LabelOctets(back) <= msg[ptr..] && Prefix(front) + PointerOctets(ptr) <= msg[at..]
    ensures DecodeName(msg, at) == Ok((Join(front + back) + [DOT], at + |Prefix(front)| + 2))
  {
    hide NameFrom;
    hide LabelOctets;
    hide PointerOctets;
    hide LabelsFit;
    hide Prefix;
    hide Join;
    hide NoDot;
    var p, rest := Prefix(front), msg[at..][|Prefix(front)| + 2..];
    TailOf(msg, at, p, PointerOctets(ptr));
    Walk(msg, at, front, [], PointerOctets(ptr) + rest);
    assert [] + front == front;
    Jump(msg, at + |p|, front, ptr);
    ReadBack(msg, ptr, back, front, at + |p| + 2);
  }

  lemma TailOf(msg: Text, at: nat, p: Text, two: Text)
    requires at <= |msg| && p + two <= msg[at..]
    ensures at + |p| + |two| <= |msg| && msg[at + |p|..at + |p| + |two|] == two
    ensures msg[at..] == p + (two + msg[at..][|p| + |two|..])
  {
    var rest := msg[at..][|p| + |two|..];
    assert msg[at..] == (p + two) + rest == p + (two + rest);
    SplitAt(msg, at, p, two, rest);
  }

  /** Two set bits and fourteen of offset. */
  function PointerOctets(ptr: nat): (s: Text)
    requires ptr < 0x4000
    ensures |s| == 2
  {
    [0xC0 + ptr / 256, ptr % 256]
  }

  /** Labels without a terminator. */
  function Prefix(labels: seq<Text>): Text {
    if labels == [] then [] else [|labels[0]| % 0x100] + labels[0] + Prefix(labels[1..])
  }

  lemma {:induction false} Walk(msg: Text, at: nat, labels: seq<Text>, parts: seq<Text>, rest: Text)
    requires at <= |msg| && msg[at..] == Prefix(labels) + rest && LabelsFit(labels)
    ensures at + |Prefix(labels)| <= |msg| && msg[at + |Prefix(labels)|..] == rest
    ensures NameFrom(msg, at, 0, parts, None) == NameFrom(msg, at + |Prefix(labels)|, 0, parts + labels, None)
    decreases labels
  {
    hide NameFrom;
    hide LabelsFit;
    if labels == [] {
      assert parts + labels == parts;
      assert Prefix(labels) + rest == rest;
    } else {
      var l := labels[0];
      FitsTail(labels);
      assert msg[at..] == [|l|] + l + (Prefix(labels[1..]) + rest);
      SplitAt(msg, at, [|l|], l, Prefix(labels[1..]) + rest);
      NameStep(msg, at, parts, l);
      Walk(msg, at + 1 + |l|, labels[1..], parts + [l], rest);
      assert (parts + [l]) + labels[1..] == parts + labels;
    }
  }

  lemma Jump(msg: Text, mark: nat, parts: seq<Text>, ptr: nat)
    requires mark + 2 <= |msg| && ptr < mark && ptr < 0x4000
    requires msg[mark..mark + 2] == PointerOctets(ptr)
    ensures NameFrom(msg, mark, 0, parts, None) == NameFrom(msg, ptr, 1, parts, Some(mark + 2))
  {
    assert msg[mark] == msg[mark..mark + 2][0] && msg[mark + 1] == msg[mark..mark + 2][1];
    assert Pointer(msg[mark], msg[mark + 1]) == ptr;
  }

  /** Reading labels to their end after a jump. */
  lemma {:induction false} ReadBack(msg: Text, off: nat, labels: seq<Text>, parts: seq<Text>, resume: nat)
    requires off <= |msg| && LabelsFit(labels) && LabelOctets(labels) <= msg[off..]
    ensures NameFrom(msg, off, 1, parts, Some(resume)) == Ok((Join(parts + labels) + [DOT], resume))
    decreases labels
  {
    hide Join;
    hide LabelOctets;
    hide LabelsFit;
    var rest := msg[off..][|LabelOctets(labels)|..];
    assert msg[off..] == LabelOctets(labels) + rest;
    if labels == [] {
      NoLabels(msg, off, rest);
      assert msg[off] == msg[off..off + 1][0];
      assert parts + labels == parts;
    } else {
      var l := labels[0];
      FitsTail(labels);
      LabelAt(msg, off, labels, rest);
      assert msg[off] == msg[off..off + 1][0] == |l|;
      ReadBack(msg, off + 1 + |l|, labels[1..], parts + [l], resume);
      assert (parts + [l]) + labels[1..] == parts + labels;
    }
  }

  /** A pointer is followed only backwards and at most sixty-four times in a row;
      anything else is refused. */
  lemma PointersAreBounded(msg: Text, off: nat, visited: nat, parts: seq<Text>, resume: Option<nat>)
    requires visited <= 64 && off + 1 < |msg| && msg[off] >= 0xC0
    ensures var ptr: int := (msg[off] as int - 0xC0) * 256 + msg[off + 1];
            NameFrom(msg, off, visited, parts, resume) ==
            (if ptr >= off || visited == 64 then Err(BadPointer)
             else NameFrom(msg, ptr, visited + 1, parts, if resume.Some? then resume else Some(off + 2)))
  {
  }

  // ------------------------------------------------------------------ questions

  /** Questions: each a name and four octets of type and class. */
  function QuestionOctets(qs: seq<(seq<Text>, Text)>): Text {
    if qs == [] then [] else EncodeName(NameOf(qs[0].0)) + qs[0].1 + QuestionOctets(qs[1..])
  }

  predicate GoodQuestion(q: (seq<Text>, Text)) {
    GoodLabels(q.0) && |q.1| == 4
  }

  lemma {:induction false} QuestionsAreSkipped(pre: Text, qs: seq<(seq<Text>, Text)>, rest: Text)
    requires forall i :: 0 <= i < |qs| ==> GoodQuestion(qs[i])
    ensures SkipQuestions(pre + QuestionOctets(qs) + rest, |pre|, |qs|) == Ok(|pre| + |QuestionOctets(qs)|)
    decreases |qs|
  {
    hide DecodeName;
    hide EncodeName;
    hide Join;
    hide LabelsFit;
    if qs != [] {
      var name, more := EncodeName(NameOf(qs[0].0)), QuestionOctets(qs[1..]);
      var msg := pre + QuestionOctets(qs) + rest;
      assert GoodQuestion(qs[0]);
      assert msg == pre + name + (qs[0].1 + more + rest);
      NameRoundTrip(pre, qs[0].0, qs[0].1 + more + rest);
      var pre' := pre + name + qs[0].1;
      assert msg == pre' + more + rest;
      QuestionsAreSkipped(pre', qs[1..], rest);
    }
  }

  /** A packet with any questions before its records parses to those records. */
  lemma PacketReads(h: Header, qs: seq<(seq<Text>, Text)>, items: seq<Item>)
    requires h.questions == |qs| && h.answers + h.authorities + h.additionals == |items|
    requires forall i :: 0 <= i < |qs| ==> GoodQuestion(qs[i])
    requires forall i :: 0 <= i < |items| ==> GoodItem(items[i])
    ensures ParseRecords(EncodeHeader(h) + QuestionOctets(qs) + ItemsOctets(items)) == Ok(RecordsOf(items))
  {
    hide EncodeHeader;
    hide DecodeHeader;
    hide ItemsOctets;
    hide QuestionOctets;
    hide Records;
    hide RecordsOf;
    hide GoodItem;
    hide GoodQuestion;
    hide SkipQuestions;
    var head, q, r := EncodeHeader(h), QuestionOctets(qs), ItemsOctets(items);
    var msg := head + q + r;
    assert msg == head + (q + r);
    HeaderRoundTrip(h, q + r);
    QuestionsAreSkipped(head, qs, r);
    RecordsToTheEnd(head + q, items);
  }
}
