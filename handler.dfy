/** The bot's concert list replies: an urgency marker per concert, one
    text block per concert, and a greedy packer that splits the blocks into
    messages, each opened by the same header. A message of two or more
    blocks stays within the ceiling; a block too long to fit beside the
    header is sent alone, over the ceiling. */
module Handler {
  import opened Seqs
  import opened Strings
  import opened Concert

  /** The packing ceiling, below Telegram's 4096-character limit. */
  const MaxMessageSize: nat := 3800

  /** The only reply to an empty list. */
  const NotFound: string := "Концертов не найдено."

  /** The shift from UTC to Moscow time, three hours. */
  const MoscowOffset: int := 3 * 3600

  // =====================================================================
  // Urgency marker
  // =====================================================================

  datatype Marker = Red | Orange | Yellow | Green

  function MarkerText(m: Marker): string {
    match m
    case Red => "\U{1F534} "
    case Orange => "\U{1F7E0} "
    case Yellow => "\U{1F7E1} "
    case Green => "\U{1F7E2} "
  }

  /** `SOURCE_ICONS`; it covers every source, so the fallback to the
      enum name is never taken. */
  function SourceIcon(s: Source): string {
    match s
    case Yandex => "®Яндекс"
    case GoStandUp => "GOSTANDUP"
    case Timepad => "Timepad"
  }

  /** `days_left`: the time to the concert in days, exactly. */
  function DaysLeft(date: int, now: int): real {
    (date - now) as real / 86400.0
  }

  /** `sold_pct`: sold over total, or 0 when the total is 0. */
  function SoldRatio(sold: int, total: int): real {
    if total != 0 then sold as real / total as real else 0.0
  }

  /** The if/elif chain of `_send_concerts`. */
  function Classify(daysLeft: real, ratio: real): Marker {
    if daysLeft < 3.0 then (if ratio < 0.7 then Red else Green)
    else if daysLeft < 7.0 then (if ratio < 0.5 then Orange else Green)
    else if daysLeft < 14.0 then (if ratio < 0.3 then Yellow else Green)
    else Green
  }

  /** The sold ratio a concert needs to be green, by days left. */
  function Threshold(daysLeft: real): real
    requires daysLeft < 14.0
  {
    if daysLeft < 3.0 then 0.7 else if daysLeft < 7.0 then 0.5 else 0.3
  }

  /** The non-green colour of each band. */
  function Band(daysLeft: real): Marker
    requires daysLeft < 14.0
  {
    if daysLeft < 3.0 then Red else if daysLeft < 7.0 then Orange else Yellow
  }

  /** A concert is green exactly when it is two weeks or more away or its
      ratio reaches the threshold of its band; otherwise it has its band's
      colour. */
  lemma ClassifyByThreshold(daysLeft: real, ratio: real)
    ensures Classify(daysLeft, ratio) == Green <==> daysLeft >= 14.0 || ratio >= Threshold(daysLeft)
    ensures daysLeft < 14.0 && ratio < Threshold(daysLeft) ==> Classify(daysLeft, ratio) == Band(daysLeft)
  {
  }

  /** Selling more never makes a concert less green, and neither does
      being further away. */
  lemma ClassifyMonotone(d1: real, d2: real, r1: real, r2: real)
    requires d1 <= d2 && r1 <= r2
    ensures Classify(d1, r1) == Green ==> Classify(d2, r2) == Green
  {
  }

  /** The marker of one table row at time `now`. */
  function MarkerFor(c: Row, now: int): Marker {
    Classify(DaysLeft(c.date, now), SoldRatio(c.ticketsSold, c.ticketsTotal))
  }

  /** A concert with a zero total never divides and counts as nothing
      sold: under two weeks away it is never green. */
  lemma ZeroTotalIsUrgent(c: Row, now: int)
    requires c.ticketsTotal == 0 && c.date - now < 14 * SecondsPerDay
    ensures MarkerFor(c, now) != Green
  {
  }

  /** The same classification in integers: seconds against whole-day
      bounds, and `sold / total < p / 10` as `10 * sold < p * total`. */
  function ClassifyInt(seconds: int, sold: int, total: int): Marker
    requires total > 0
  {
    if seconds < 3 * SecondsPerDay then (if 10 * sold < 7 * total then Red else Green)
    else if seconds < 7 * SecondsPerDay then (if 10 * sold < 5 * total then Orange else Green)
    else if seconds < 14 * SecondsPerDay then (if 10 * sold < 3 * total then Yellow else Green)
    else Green
  }

  lemma DaysBelow(seconds: int, days: int)
    ensures (seconds as real / 86400.0 < days as real) <==> seconds < days * SecondsPerDay
  {
  }

  lemma RatioBelow(sold: int, total: int, tenths: int)
    requires total > 0
    ensures (sold as real / total as real < tenths as real / 10.0) <==> 10 * sold < tenths * total
  {
    var q := sold as real / total as real;
    assert q * total as real == sold as real;
  }

  /** With a positive total the real-valued marker agrees with the
      integer one. */
  lemma MarkerForInIntegers(c: Row, now: int)
    requires c.ticketsTotal > 0
    ensures MarkerFor(c, now) == ClassifyInt(c.date - now, c.ticketsSold, c.ticketsTotal)
  {
    DaysBelow(c.date - now, 3);
    DaysBelow(c.date - now, 7);
    DaysBelow(c.date - now, 14);
    RatioBelow(c.ticketsSold, c.ticketsTotal, 7);
    RatioBelow(c.ticketsSold, c.ticketsTotal, 5);
    RatioBelow(c.ticketsSold, c.ticketsTotal, 3);
  }

  // =====================================================================
  // Blocks
  // =====================================================================

  /** `f"<b>{title}</b>\n\n"`. */
  function Header(title: string): string {
    "<b>" + title + "</b>\n\n"
  }

  /** One concert's block: marker and icon, bold name, the Moscow-time
      stamp, `sold/total`, then a blank line. `stamp` stands for the
      `strftime("%Y-%m-%d %H:%M")` rendering. */
  function Block(c: Row, now: int, stamp: int -> string): string {
    MarkerText(MarkerFor(c, now)) + SourceIcon(c.source) + "\n"
    + "<b>" + c.name + "</b>\n"
    + stamp(c.date + MoscowOffset) + "\n"
    + IntToString(c.ticketsSold) + "/" + IntToString(c.ticketsTotal) + "\n\n"
  }

  function Blocks(concerts: seq<Row>, now: int, stamp: int -> string): (bs: seq<string>)
    ensures |bs| == |concerts|
  {
    seq(|concerts|, i requires 0 <= i < |concerts| => Block(concerts[i], now, stamp))
  }

  lemma BlocksSnoc(concerts: seq<Row>, now: int, stamp: int -> string, i: nat)
    requires i < |concerts|
    ensures Blocks(concerts, now, stamp)[..i + 1] == Blocks(concerts, now, stamp)[..i] + [Block(concerts[i], now, stamp)]
  {
    var bs := Blocks(concerts, now, stamp);
    SliceSnoc(bs, i);
    assert bs[i] == Block(concerts[i], now, stamp);
  }

  /** A block starts with its concert's marker and ends with a blank line. */
  lemma BlockShape(c: Row, now: int, stamp: int -> string)
    ensures var b := Block(c, now, stamp);
            var m := MarkerText(MarkerFor(c, now));
            && |b| >= |m| + 2
            && b[..|m|] == m
            && b[|b| - 2..] == "\n\n"
  {
  }

  // =====================================================================
  // Packing
  // =====================================================================

  /** The blocks already sent, grouped per message, and the blocks of the
      chunk being filled. */
  datatype Packing = Packing(done: seq<seq<string>>, current: seq<string>)

  /** A message: the header followed by its blocks. */
  function Render(h: string, group: seq<string>): string {
    h + Concat(group)
  }

  function RenderAll(h: string, groups: seq<seq<string>>): (ms: seq<string>)
    ensures |ms| == |groups|
  {
    seq(|groups|, i requires 0 <= i < |groups| => Render(h, groups[i]))
  }

  /** The packing loop: a block that would push the chunk past `limit`
      sends the chunk and starts a new one with that block. */
  function Pack(h: string, blocks: seq<string>, limit: nat): Packing {
    if blocks == [] then Packing([], [])
    else
      var p := Pack(h, blocks[..|blocks| - 1], limit);
      var b := blocks[|blocks| - 1];
      if |Render(h, p.current)| + |b| > limit then Packing(p.done + [p.current], [b])
      else Packing(p.done, p.current + [b])
  }

  /** Every message's blocks: those sent during the loop, then the last chunk. */
  function Groups(p: Packing): seq<seq<string>> {
    p.done + [p.current]
  }

  /** What `_send_concerts` sends for a non-empty list: one message per
      group, the last only when it is not whitespace. */
  function Messages(h: string, blocks: seq<string>, limit: nat): seq<string> {
    var p := Pack(h, blocks, limit);
    var last := Render(h, p.current);
    RenderAll(h, p.done) + (if IsBlank(last) then [] else [last])
  }

  lemma PackSnoc(h: string, blocks: seq<string>, b: string, limit: nat)
    ensures Pack(h, blocks + [b], limit) ==
              var p := Pack(h, blocks, limit);
              if |Render(h, p.current)| + |b| > limit then Packing(p.done + [p.current], [b])
              else Packing(p.done, p.current + [b])
  {
    assert (blocks + [b])[..|blocks|] == blocks;
  }

  /** Every block appears whole, exactly once, and in input order: the
      groups put back together are the blocks. */
  lemma {:induction false} PackPartition(h: string, blocks: seq<string>, limit: nat)
    ensures Concat(Groups(Pack(h, blocks, limit))) == blocks
  {
    if blocks != [] {
      var init := blocks[..|blocks| - 1];
      var b := blocks[|blocks| - 1];
      var p := Pack(h, init, limit);
      PackPartition(h, init, limit);
      assert blocks == init + [b];
      ConcatSnoc(p.done, p.current);
      if |Render(h, p.current)| + |b| > limit {
        ConcatSnoc(p.done + [p.current], [b]);
      } else {
        ConcatSnoc(p.done, p.current + [b]);
      }
    }
  }

  /** After at least one block the chunk being filled holds a block. */
  lemma PackCurrentNonEmpty(h: string, blocks: seq<string>, limit: nat)
    requires blocks != []
    ensures Pack(h, blocks, limit).current != []
  {
  }

  /** Only the first message can be the header alone, and it is exactly
      when the first block does not fit beside the header. */
  lemma {:induction false} PackHeaderOnly(h: string, blocks: seq<string>, limit: nat)
    requires blocks != []
    ensures var gs := Groups(Pack(h, blocks, limit));
            && (gs[0] == [] <==> |h| + |blocks[0]| > limit)
            && forall i :: 1 <= i < |gs| ==> gs[i] != []
  {
    var init := blocks[..|blocks| - 1];
    var b := blocks[|blocks| - 1];
    var p := Pack(h, init, limit);
    var gs0 := Groups(p);
    var gs := Groups(Pack(h, blocks, limit));
    if init == [] {
      assert blocks == [b];
      assert Concat<string>([]) == [];
    } else {
      PackHeaderOnly(h, init, limit);
      PackCurrentNonEmpty(h, init, limit);
      assert init[0] == blocks[0];
      if |Render(h, p.current)| + |b| > limit {
        assert gs == gs0 + [[b]];
        assert gs[0] == gs0[0];
        forall i | 1 <= i < |gs| ensures gs[i] != [] {
          if i < |gs0| { assert gs[i] == gs0[i]; }
        }
      } else {
        assert gs == p.done + [p.current + [b]];
        if p.done == [] {
          assert gs[0] == p.current + [b] && gs0[0] == p.current;
        } else {
          assert gs[0] == gs0[0];
        }
        forall i | 1 <= i < |gs| ensures gs[i] != [] {
          if i < |p.done| { assert gs[i] == gs0[i]; }
        }
      }
    }
  }

  /** Every message with two or more blocks is within `limit`. */
  predicate MultiBlockFit(h: string, gs: seq<seq<string>>, limit: nat) {
    forall i :: 0 <= i < |gs| && |gs[i]| >= 2 ==> |Render(h, gs[i])| <= limit
  }

  /** Every message but the last was closed because the next block would
      not fit after it. */
  predicate Greedy(h: string, gs: seq<seq<string>>, limit: nat) {
    forall i :: 0 <= i < |gs| - 1 ==> ClosedAt(h, gs, limit, i)
  }

  /** Message `i` was sent because the first block of message `i + 1`
      would not fit after it. */
  predicate ClosedAt(h: string, gs: seq<seq<string>>, limit: nat, i: nat)
    requires i + 1 < |gs|
  {
    gs[i + 1] != [] && |Render(h, gs[i])| + |gs[i + 1][0]| > limit
  }

  /** Any message holding two or more blocks is within the limit. */
  lemma {:induction false} PackFits(h: string, blocks: seq<string>, limit: nat)
    ensures MultiBlockFit(h, Groups(Pack(h, blocks, limit)), limit)
  {
    if blocks != [] {
      var init := blocks[..|blocks| - 1];
      var b := blocks[|blocks| - 1];
      var p := Pack(h, init, limit);
      var gs0 := Groups(p);
      var gs := Groups(Pack(h, blocks, limit));
      PackFits(h, init, limit);
      if |Render(h, p.current)| + |b| > limit {
        assert gs == gs0 + [[b]];
        forall i | 0 <= i < |gs| && |gs[i]| >= 2 ensures |Render(h, gs[i])| <= limit {
          assert gs[i] == gs0[i];
        }
      } else {
        ConcatSnoc(p.current, b);
        assert gs == p.done + [p.current + [b]];
        forall i | 0 <= i < |gs| && |gs[i]| >= 2 ensures |Render(h, gs[i])| <= limit {
          if i < |p.done| {
            assert gs[i] == gs0[i];
          } else {
            assert |Render(h, gs[i])| == |Render(h, p.current)| + |b|;
          }
        }
      }
    }
  }

  /** The packing is greedy: every message but the last was sent because
      the next block would not fit after it. */
  lemma {:induction false} PackGreedy(h: string, blocks: seq<string>, limit: nat)
    ensures Greedy(h, Groups(Pack(h, blocks, limit)), limit)
  {
    if blocks != [] {
      var init := blocks[..|blocks| - 1];
      var b := blocks[|blocks| - 1];
      var p := Pack(h, init, limit);
      var gs0 := Groups(p);
      var gs := Groups(Pack(h, blocks, limit));
      PackGreedy(h, init, limit);
      if |Render(h, p.current)| + |b| > limit {
        assert gs == gs0 + [[b]];
        forall i | 0 <= i < |gs| - 1
          ensures ClosedAt(h, gs, limit, i)
        {
          if i + 1 < |gs0| {
            assert ClosedAt(h, gs0, limit, i);
            assert gs[i] == gs0[i] && gs[i + 1] == gs0[i + 1];
          } else {
            assert gs[i] == p.current && gs[i + 1] == [b];
          }
        }
      } else {
        assert gs == p.done + [p.current + [b]];
        forall i | 0 <= i < |gs| - 1
          ensures ClosedAt(h, gs, limit, i)
        {
          assert gs[i] == gs0[i];
          if i + 1 < |p.done| {
            assert ClosedAt(h, gs0, limit, i);
            assert gs[i + 1] == gs0[i + 1];
          } else {
            assert ClosedAt(h, gs0, limit, i);
            PackCurrentNonEmpty(h, init, limit);
            assert gs0[i + 1] == p.current;
            assert gs[i + 1][0] == p.current[0];
          }
        }
      }
    }
  }

  lemma RenderAllSnoc(h: string, groups: seq<seq<string>>, g: seq<string>)
    ensures RenderAll(h, groups + [g]) == RenderAll(h, groups) + [Render(h, g)]
  {
  }

  /** One more block, as the messages the loop sends and the chunk it holds. */
  lemma PackRendered(h: string, blocks: seq<string>, b: string, limit: nat)
    ensures var p := Pack(h, blocks, limit);
            var q := Pack(h, blocks + [b], limit);
            if |Render(h, p.current)| + |b| > limit then
              RenderAll(h, q.done) == RenderAll(h, p.done) + [Render(h, p.current)] && Render(h, q.current) == h + b
            else
              RenderAll(h, q.done) == RenderAll(h, p.done) && Render(h, q.current) == Render(h, p.current) + b
  {
    var p := Pack(h, blocks, limit);
    PackSnoc(h, blocks, b, limit);
    if |Render(h, p.current)| + |b| > limit {
      RenderAllSnoc(h, p.done, p.current);
      RenderSingle(h, b);
    } else {
      RenderAppend(h, p.current, b);
    }
  }

  lemma RenderSingle(h: string, b: string)
    ensures Render(h, [b]) == h + b
  {
    ConcatSnoc([], b);
    assert [] + [b] == [b];
  }

  lemma RenderAppend(h: string, group: seq<string>, b: string)
    ensures Render(h, group + [b]) == Render(h, group) + b
  {
    ConcatSnoc(group, b);
  }

  /** A header with a visible character is never whitespace. */
  lemma HeaderNotBlank(title: string)
    ensures !IsBlank(Header(title))
  {
    BlankIffAllSpace(Header(title));
    assert Header(title)[0] == '<';
  }

  /** When the header is not whitespace, every group becomes a message. */
  lemma MessagesAreGroups(h: string, blocks: seq<string>, limit: nat)
    requires !IsBlank(h)
    ensures Messages(h, blocks, limit) == RenderAll(h, Groups(Pack(h, blocks, limit)))
  {
    var p := Pack(h, blocks, limit);
    var last := Render(h, p.current);
    BlankIffAllSpace(h);
    BlankIffAllSpace(last);
    var k :| 0 <= k < |h| && !IsSpace(h[k]);
    assert last[k] == h[k];
    assert !IsBlank(last);
    RenderAllSnoc(h, p.done, p.current);
  }

  /** Every message opens with the header. */
  lemma MessagesStartWithHeader(h: string, blocks: seq<string>, limit: nat)
    ensures forall m :: m in Messages(h, blocks, limit) ==> |h| <= |m| && m[..|h|] == h
  {
  }

  // =====================================================================
  // _send_concerts
  // =====================================================================

  /** One turn of the chunk loop: send the chunk and restart it with the
      block when the block would push it past the ceiling, otherwise
      append the block. */
  method AddBlock(header: string, ghost done: seq<string>, sent: seq<string>, chunk: string, block: string)
    returns (sent': seq<string>, chunk': string)
    requires sent == RenderAll(header, Pack(header, done, MaxMessageSize).done)
    requires chunk == Render(header, Pack(header, done, MaxMessageSize).current)
    ensures sent' == RenderAll(header, Pack(header, done + [block], MaxMessageSize).done)
    ensures chunk' == Render(header, Pack(header, done + [block], MaxMessageSize).current)
  {
    PackRendered(header, done, block, MaxMessageSize);
    if |chunk| + |block| > MaxMessageSize {
      sent' := sent + [chunk];
      chunk' := header + block;
    } else {
      sent' := sent;
      chunk' := chunk + block;
    }
  }

  /** `_send_concerts`: the messages sent, in order. An empty list gets the
      single "not found" reply; otherwise the chunk loop runs and the
      messages are exactly `Messages` of the header and the blocks. */
  method SendConcerts(concerts: seq<Row>, title: string, now: int, stamp: int -> string)
    returns (sent: seq<string>)
    ensures concerts == [] ==> sent == [NotFound]
    ensures concerts != [] ==> sent == Messages(Header(title), Blocks(concerts, now, stamp), MaxMessageSize)
  {
    if concerts == [] {
      return [NotFound];
    }
    var header := Header(title);
    ghost var blocks := Blocks(concerts, now, stamp);
    var chunk := header;
    sent := [];
    var i := 0;
    while i < |concerts|
      invariant 0 <= i <= |concerts|
      invariant sent == RenderAll(header, Pack(header, blocks[..i], MaxMessageSize).done)
      invariant chunk == Render(header, Pack(header, blocks[..i], MaxMessageSize).current)
    {
      var block := Block(concerts[i], now, stamp);
      BlocksSnoc(concerts, now, stamp, i);
      sent, chunk := AddBlock(header, blocks[..i], sent, chunk, block);
      i := i + 1;
    }
    assert blocks[..i] == blocks;
    if !IsBlank(chunk) {
      sent := sent + [chunk];
    }
  }
}
