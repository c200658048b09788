/**
 HTTP/2 responses read off their header blocks: which status the digits say, which fields are
 kept, in what order, and which content type stands.
 */
module Http2Texts {
  import opened Text
  import opened Http2Connections
  import opened Http2Engines

  // --------------------------------------------------------------------- the status

  /** The block's status field is `v`. */
  ghost predicate SaysText(block: Block, v: string) {
    exists i :: 0 <= i < |block| && block[i] == (":status", v) && forall j :: 0 <= j < i ==> block[j].0 != ":status"
  }

  lemma {:induction false} FoundFirst(block: Block, i: nat, v: string)
    requires i < |block| && block[i] == (":status", v) && forall j :: 0 <= j < i ==> block[j].0 != ":status"
    ensures Lookup(block, ":status") == Some(v)
    decreases |block|
  {
    if i > 0 { FoundFirst(block[1..], i - 1, v); }
  }

  lemma ThreeDigits(v: string)
    requires |v| == 3 && AllDigits(v, 10)
    ensures Read3(v) == NumberValue(v, 10) <= 999
  {
    assert v[..2][..1] == v[..1] && v[..2][1] == v[1] && v[..1][0] == v[0] && v[..1][..0] == "";
    assert NumberValue(v[..1], 10) == DigitValue(v[0]);
    assert NumberValue(v[..2], 10) == DigitValue(v[0]) * 10 + DigitValue(v[1]);
  }

  /** Three digits say their number, from one hundred on; less is malformed. */
  lemma StatusDigits(block: Block, v: string)
    requires SaysText(block, v) && |v| == 3 && AllDigits(v, 10)
    ensures FromChars(v, 10, UINT16_MAX).Some?
    ensures BlockStatus(block) ==
            if FromChars(v, 10, UINT16_MAX).value >= 100 then FromChars(v, 10, UINT16_MAX) else None
  {
    hide NumberValue;
    var i :| 0 <= i < |block| && block[i] == (":status", v) && forall j :: 0 <= j < i ==> block[j].0 != ":status";
    FoundFirst(block, i, v);
    ThreeDigits(v);
  }

  lemma ThreeLong(n: nat)
    requires 100 <= n <= 999
    ensures |ToChars(n, 10)| == 3
  {
    var q := n / 10;
    assert 10 <= q <= 99 && 1 <= q / 10 <= 9;
    assert |ToChars(q / 10, 10)| == 1;
    assert |ToChars(q, 10)| == 2;
  }

  /** A printed status is read back. */
  lemma StatusPrinted(block: Block, n: nat)
    requires 100 <= n <= 999 && SaysText(block, ToChars(n, 10))
    ensures BlockStatus(block) == Some(n)
  {
    hide ToChars, FromChars, SaysText, BlockStatus;
    ThreeLong(n);
    ToCharsRoundTrip(n, 10);
    ToCharsFromChars(n, 10, UINT16_MAX);
    StatusDigits(block, ToChars(n, 10));
  }

  /** A header block on the stream whose status is an interim one. */
  ghost predicate InterimText(c: Call) {
    c.HeadersCall? && exists m :: 100 <= m < 200 && SaysText(c.block, ToChars(m, 10))
  }

  /** Up to the first final block there is none. */
  lemma {:induction false} OnlyInterims(calls: seq<Call>, id: nat)
    requires forall i :: 0 <= i < |calls| && calls[i].HeadersCall? && calls[i].id == id ==> InterimText(calls[i])
    ensures FinalBlocks(calls, id) == []
  {
    hide SaysText, BlockStatus, ToChars;
    if calls != [] {
      var c := calls[|calls| - 1];
      OnlyInterims(calls[..|calls| - 1], id);
      if c.HeadersCall? && c.id == id {
        assert InterimText(calls[|calls| - 1]);
        var m :| 100 <= m < 200 && SaysText(c.block, ToChars(m, 10));
        StatusPrinted(c.block, m);
      }
    }
  }

  /** The first final block stays the first, whatever follows. */
  lemma {:induction false} FirstStays(calls: seq<Call>, id: nat, k: nat)
    requires k <= |calls| && FinalBlocks(calls[..k], id) != []
    ensures FinalBlocks(calls, id) != [] && FinalBlocks(calls, id)[0] == FinalBlocks(calls[..k], id)[0]
    decreases |calls|
  {
    hide IsFinal;
    if k < |calls| {
      var init := calls[..|calls| - 1];
      assert init[..k] == calls[..k];
      FirstStays(init, id, k);
    } else {
      assert calls[..k] == calls;
    }
  }

  /**
   The status of a completed exchange, in digits: that of the first header block on its stream
   which is not interim, whatever other streams say and whatever follows.
   */
  lemma CompletedStatus(id: nat, limit: nat, calls: seq<Call>, msg: Message, k: nat, n: nat)
    requires CompletedBy(Deliver(Started(id, limit), calls), msg) && k < |calls| && 200 <= n <= 999
    requires forall i :: 0 <= i < k && calls[i].HeadersCall? && calls[i].id == id ==> InterimText(calls[i])
    requires calls[k].HeadersCall? && calls[k].id == id && SaysText(calls[k].block, ToChars(n, 10))
    ensures msg.status == n
  {
    hide Deliver, SaysText, BlockStatus, ToChars, DataFor, FieldsOf, InterimText;
    var before, c := calls[..k], calls[k];
    assert forall i :: 0 <= i < k ==> before[i] == calls[i];
    OnlyInterims(before, id);
    StatusPrinted(c.block, n);
    var upTo := calls[..k + 1];
    assert upTo[..k] == before && upTo[k] == c;
    assert FinalBlocks(upTo, id) == [] + [c.block];
    FirstStays(calls, id, k + 1);
    ResponseIsWhatArrived(id, limit, calls);
  }

  /** A block without a status of three characters, or with one below a hundred. */
  ghost predicate BadText(block: Block) {
    || (forall i :: 0 <= i < |block| ==> block[i].0 != ":status")
    || exists v :: SaysText(block, v) && (|v| != 3 || (AllDigits(v, 10) && NumberValue(v, 10) < 100))
  }

  lemma {:induction false} FoundNone(block: Block)
    requires forall i :: 0 <= i < |block| ==> block[i].0 != ":status"
    ensures Lookup(block, ":status") == None
  {
    if block != [] {
      assert block[0].0 != ":status";
      FoundNone(block[1..]);
    }
  }

  lemma BadIsMalformed(block: Block)
    requires BadText(block)
    ensures BlockStatus(block) == None
  {
    hide NumberValue;
    if forall i :: 0 <= i < |block| ==> block[i].0 != ":status" {
      FoundNone(block);
    } else {
      var v :| SaysText(block, v) && (|v| != 3 || (AllDigits(v, 10) && NumberValue(v, 10) < 100));
      var i :| 0 <= i < |block| && block[i] == (":status", v) && forall j :: 0 <= j < i ==> block[j].0 != ":status";
      FoundFirst(block, i, v);
      if |v| == 3 { StatusDigits(block, v); }
    }
  }

  /** An exchange whose first block that is not interim has no proper status never completes. */
  lemma MalformedNeverCompletes(id: nat, limit: nat, calls: seq<Call>, msg: Message, k: nat)
    requires k < |calls| && calls[k].HeadersCall? && calls[k].id == id && BadText(calls[k].block)
    requires forall i :: 0 <= i < k && calls[i].HeadersCall? && calls[i].id == id ==> InterimText(calls[i])
    ensures !CompletedBy(Deliver(Started(id, limit), calls), msg)
  {
    hide BadText, BlockStatus, InterimText, DataFor, FieldsOf, Deliver, ResponseOf;
    var before, after, start := calls[..k], calls[k + 1..], Started(id, limit);
    assert calls == (before + [calls[k]]) + after;
    DeliverMore(start, before + [calls[k]], after);
    DeliverMore(start, before, [calls[k]]);
    DeliverKeeps(start, before);
    assert forall i :: 0 <= i < k ==> before[i] == calls[i];
    OnlyInterims(before, id);
    BadIsMalformed(calls[k].block);
    var e := Deliver(start, before);
    if e.failure == NoFailure { ResponseIsWhatArrived(id, limit, before); }
    OneCall(e, calls[k]);
    CallOnce(e, calls[k]);
    assert OnCall(e, calls[k]).failure != NoFailure;
    DeliverKeeps(OnCall(e, calls[k]), after);
  }

  lemma OneCall(e: Exchange, c: Call)
    ensures Deliver(e, [c]) == OnCall(e, c)
  {
    hide OnCall;
    assert [c][..0] == [] && Deliver(e, []) == e;
  }

  // ------------------------------------------------------------ when it completes

  /**
   The callback fails the exchange, given those before it: a reset; a GOAWAY below the stream
   while it is open; a header block without a proper status where the final one was due; more
   data than the limit allows.
   */
  predicate Spoils(before: seq<Call>, c: Call, id: nat, limit: nat) {
    match c
    case ResetCall(on) => on == id
    case GoAwayCall(last) => id > last && ClosedCall(id) !in before
    case HeadersCall(on, block, _) => on == id && FinalBlocks(before, id) == [] && BlockStatus(block).None?
    case DataCall(on, data, _) => on == id && data != "" && |DataFor(before, id)| + |data| > limit
    case ClosedCall(_) => false
  }

  /** The callback ends the response: END_STREAM on data or on a block that is not interim, or a close. */
  predicate Ends(before: seq<Call>, c: Call, id: nat) {
    match c
    case HeadersCall(on, _, endStream) => on == id && endStream && FinalBlocks(before + [c], id) != []
    case DataCall(on, _, endStream) => on == id && endStream
    case ClosedCall(on) => on == id
    case _ => false
  }

  ghost predicate Healthy(calls: seq<Call>, id: nat, limit: nat) {
    forall i :: 0 <= i < |calls| ==> !Spoils(calls[..i], calls[i], id, limit)
  }

  ghost predicate Ended(calls: seq<Call>, id: nat) { exists i :: 0 <= i < |calls| && Ends(calls[..i], calls[i], id) }

  lemma HealthyMore(calls: seq<Call>, c: Call, id: nat, limit: nat)
    ensures Healthy(calls + [c], id, limit) <==> Healthy(calls, id, limit) && !Spoils(calls, c, id, limit)
    ensures Ended(calls + [c], id) <==> Ended(calls, id) || Ends(calls, c, id)
  {
    hide Spoils, Ends;
    var more := calls + [c];
    assert more[..|calls|] == calls && more[|calls|] == c;
    assert forall i :: 0 <= i < |calls| ==> more[..i] == calls[..i] && more[i] == calls[i];
  }

  lemma {:induction false} ClosedWhenHeard(id: nat, limit: nat, calls: seq<Call>)
    ensures Deliver(Started(id, limit), calls).streamClosed <==> ClosedCall(id) in calls
  {
    hide OnHeaders, OnData;
    if calls != [] {
      var n := |calls| - 1;
      ClosedWhenHeard(id, limit, calls[..n]);
      DeliverKeeps(Started(id, limit), calls[..n]);
      CallOnce(Deliver(Started(id, limit), calls[..n]), calls[n]);
      assert calls == calls[..n] + [calls[n]];
      ClosesOnly(Deliver(Started(id, limit), calls[..n]), calls[n]);
    }
  }

  lemma ClosesOnly(e: Exchange, c: Call)
    ensures OnCall(e, c).streamClosed <==> e.streamClosed || c == ClosedCall(e.streamId)
  {
    hide Copied, BlockStatus;
  }

  /** One callback on a healthy exchange that has heard `before`. */
  lemma CallDecides(e: Exchange, before: seq<Call>, c: Call, limit: nat)
    requires e.attached && e.failure == NoFailure && e.limit == limit
    requires e.finalHeadersSeen == (FinalBlocks(before, e.streamId) != [])
    requires e.msg.body == DataFor(before, e.streamId) && e.streamClosed == (ClosedCall(e.streamId) in before)
    ensures OnCall(e, c).failure == NoFailure <==> !Spoils(before, c, e.streamId, limit)
    ensures !Spoils(before, c, e.streamId, limit) ==>
              (OnCall(e, c).responseComplete || OnCall(e, c).streamClosed <==>
               e.responseComplete || e.streamClosed || Ends(before, c, e.streamId))
  {
    hide OnHeaders, OnData, DataFor, FinalBlocks, BlockStatus;
    match c
    case HeadersCall(on, block, endStream) => HeadersDecide(e, before, c, limit);
    case DataCall(on, data, endStream) => DataDecides(e, before, c, limit);
    case _ =>
  }

  lemma HeadersDecide(e: Exchange, before: seq<Call>, c: Call, limit: nat)
    requires e.attached && e.failure == NoFailure && c.HeadersCall?
    requires e.finalHeadersSeen == (FinalBlocks(before, e.streamId) != [])
    ensures var e' := OnHeaders(e, c.id, c.block, c.endStream);
            && (e'.failure == NoFailure <==> !Spoils(before, c, e.streamId, limit))
            && e'.streamClosed == e.streamClosed
            && (e'.failure == NoFailure ==>
                  (e'.responseComplete <==> e.responseComplete || Ends(before, c, e.streamId)))
  {
    hide Copied, BlockStatus;
    assert (before + [c])[..|before|] == before;
  }

  lemma DataDecides(e: Exchange, before: seq<Call>, c: Call, limit: nat)
    requires e.attached && e.failure == NoFailure && e.limit == limit && c.DataCall?
    requires e.msg.body == DataFor(before, e.streamId)
    ensures var e' := OnData(e, c.id, c.data, c.endStream);
            && (e'.failure == NoFailure <==> !Spoils(before, c, e.streamId, limit))
            && e'.streamClosed == e.streamClosed
            && (e'.responseComplete <==> e.responseComplete || Ends(before, c, e.streamId))
  {
    hide DataFor;
  }

  /** When an exchange completes, over any callbacks: exactly when none spoils it and one ends it. */
  lemma {:induction false} CompletesWhen(id: nat, limit: nat, calls: seq<Call>)
    ensures var e := Deliver(Started(id, limit), calls);
            && (e.failure == NoFailure <==> Healthy(calls, id, limit))
            && (Healthy(calls, id, limit) ==> (e.responseComplete || e.streamClosed <==> Ended(calls, id)))
  {
    hide OnCall, Spoils, Ends, FinalBlocks, DataFor, Healthy, Ended, ResponseOf;
    if calls == [] {
      NothingYet(id, limit);
    } else {
      var n := |calls| - 1;
      var init, c := calls[..n], calls[n];
      var e := Deliver(Started(id, limit), init);
      CompletesWhen(id, limit, init);
      assert calls == init + [c];
      HealthyMore(init, c, id, limit);
      DeliverKeeps(Started(id, limit), init);
      CallOnce(e, c);
      if e.failure == NoFailure {
        ResponseIsWhatArrived(id, limit, init);
        BodyIsWhatArrived(Started(id, limit), init);
        ClosedWhenHeard(id, limit, init);
        assert "" + DataFor(init, id) == DataFor(init, id);
        CallDecides(e, init, c, limit);
      }
    }
  }

  lemma NothingYet(id: nat, limit: nat)
    ensures Healthy([], id, limit) && !Ended([], id) && Deliver(Started(id, limit), []) == Started(id, limit)
  {
  }

  // --------------------------------------------------------------------- the fields

  predicate IsKept(field: (string, string)) {
    !(field.0 != "" && field.0[0] == ':') && !Spells(field.0, "Content-Type") && !Spells(field.0, "Content-Length")
  }

  /** A content type: no pseudo field, so named in any case. */
  predicate IsType(field: (string, string)) { Spells(field.0, "Content-Type") }

  /** The kept fields of a block, in order. */
  function Kept(block: Block): Block {
    if block == [] then []
    else
      var n := |block| - 1;
      Kept(block[..n]) + (if IsKept(block[n]) then [block[n]] else [])
  }

  /** The last content type of a block, or what stood before. */
  function TypeAfter(block: Block, before: string): string {
    if block == [] then before
    else
      var n := |block| - 1;
      if IsType(block[n]) then block[n].1 else TypeAfter(block[..n], before)
  }

  lemma NamesFolded()
    ensures Lower("Content-Type") == "content-type" && Lower("Content-Length") == "content-length"
  {
    hide Lower;
    LowerIs("Content-Type", "content-type");
    LowerIs("Content-Length", "content-length");
  }

  lemma NotPseudo(name: string)
    requires Spells(name, "Content-Type") || Spells(name, "Content-Length")
    ensures name != "" && name[0] != ':'
  {
  }

  /** One field, by its name. */
  lemma FieldCopied(m: Message, field: (string, string))
    ensures CopyField(m, field) ==
            if IsType(field) then m.(contentType := field.1)
            else if IsKept(field) then m.(fields := m.fields + [field]) else m
  {
    hide Spells, EqualIgnoreCase;
    NamesFolded();
    EqualMeansSpells(field.0, "Content-Type", "content-type");
    EqualMeansSpells(field.0, "Content-Length", "content-length");
    if Spells(field.0, "Content-Type") || Spells(field.0, "Content-Length") { NotPseudo(field.0); }
    BothNames(field.0);
  }

  lemma {:induction false} CopiedMore(m: Message, block: Block, field: (string, string))
    ensures Copied(m, block + [field]) == CopyField(Copied(m, block), field)
    decreases |block|
  {
    hide CopyField;
    if block == [] {
      assert block + [field] == [field] && [field][1..] == [];
    } else {
      CopiedMore(CopyField(m, block[0]), block[1..], field);
      assert (block + [field])[1..] == block[1..] + [field];
    }
  }

  lemma BothNames(name: string)
    ensures !(Spells(name, "Content-Type") && Spells(name, "Content-Length"))
  {
  }

  /** Copying a block appends its kept fields in order and takes its last content type. */
  lemma {:induction false} CopiedFields(m: Message, block: Block)
    ensures Copied(m, block).fields == m.fields + Kept(block)
    ensures Copied(m, block).contentType == TypeAfter(block, m.contentType)
    decreases |block|
  {
    hide IsKept, IsType, CopyField, Copied;
    if block == [] {
      NothingCopied(m);
    } else {
      var n := |block| - 1;
      CopiedFields(m, block[..n]);
      CopiedMore(m, block[..n], block[n]);
      FieldCopied(Copied(m, block[..n]), block[n]);
      assert block == block[..n] + [block[n]];
      KeptOrType(block[n]);
    }
  }

  lemma NothingCopied(m: Message)
    ensures Copied(m, []) == m
  {
  }

  lemma KeptOrType(field: (string, string))
    ensures !(IsKept(field) && IsType(field))
  {
  }

  /** All fields of some blocks, one after the other. */
  function Flat(blocks: seq<Block>): Block {
    if blocks == [] then [] else Flat(blocks[..|blocks| - 1]) + blocks[|blocks| - 1]
  }

  lemma {:induction false} KeptJoin(a: Block, b: Block, before: string)
    ensures Kept(a + b) == Kept(a) + Kept(b) && TypeAfter(a + b, before) == TypeAfter(b, TypeAfter(a, before))
    decreases |b|
  {
    hide IsKept, IsType;
    if b == [] {
      assert a + b == a;
    } else {
      var n := |b| - 1;
      KeptJoin(a, b[..n], before);
      assert (a + b)[..|a + b| - 1] == a + b[..n];
    }
  }

  /** The fields of a response: those kept of its head and trailers, in order; its content type, their last. */
  lemma {:induction false} ResponseFields(blocks: seq<Block>)
    ensures FieldsOf(blocks).fields == Kept(Flat(blocks)) && FieldsOf(blocks).contentType == TypeAfter(Flat(blocks), "")
  {
    hide Kept, TypeAfter, Copied;
    if blocks == [] {
      NothingKept();
    } else {
      var n := |blocks| - 1;
      ResponseFields(blocks[..n]);
      CopiedFields(FieldsOf(blocks[..n]), blocks[n]);
      KeptJoin(Flat(blocks[..n]), blocks[n], "");
    }
  }

  lemma NothingKept()
    ensures Kept([]) == [] && TypeAfter([], "") == ""
  {
  }
}
