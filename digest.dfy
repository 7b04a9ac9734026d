/** The digest that send_ebay_offers builds from the scraped records
    (ebaybot.py, lines 89-104): one numbered line per record, cut into
    messages each time the accumulated text grows past 4000 characters,
    together with the map from ordinal to link that /detail consults. */
module Digest {
  import opened Text
  import opened Listings

  /** The length past which the accumulated message is sent (line 97). */
  const Budget := 4000

  /** Telegram's limit on one message, which the budget is meant to keep. */
  const TelegramLimit := 4096

  /** Line 93: "<k>. <title> - Preis: <price>" and a newline. */
  function Line(k: nat, item: Listing): string {
    DecimalOf(k) + ". " + item.title + " - Preis: " + item.price + "\n"
  }

  /** The lines of the digest, numbered from 1 in record order. */
  function Lines(items: seq<Listing>): seq<string> {
    seq(|items|, i requires 0 <= i < |items| => Line(i + 1, items[i]))
  }

  /** The number a reader sees at the head of a line, up to the first '.',
      is the ordinal the line was built with, which is the key its link is
      stored under (see ResultIndexLinks). */
  lemma LineNumberReadsBack(k: nat, item: Listing)
    ensures Split(Line(k, item), ".")[0] == DecimalOf(k)
    ensures Line(k, item)[|Line(k, item)| - 1] == '\n'
  {
    var d := DecimalOf(k);
    var rest := " " + item.title + " - Preis: " + item.price + "\n";
    assert Line(k, item) == d + ['.'] + rest;
    assert '.' !in d by {
      forall i | 0 <= i < |d| ensures d[i] != '.' {
        assert IsDigit(d[i]);
      }
    }
    SplitCons(d, '.', rest);
  }

  // ---------------------------------------------------------------------
  // cutting the digest into messages

  /** The messages the loop of lines 92-102 sends for the lines still to
      come when `message` has accumulated so far: a line is appended first
      and the message is sent once it is longer than the budget; whatever
      is left at the end is sent if it is non-empty. */
  function Flushes(message: string, lines: seq<string>): seq<string>
    decreases |lines|
  {
    if lines == [] then (if message != "" then [message] else [])
    else
      var m := message + lines[0];
      if |m| > Budget then [m] + Flushes("", lines[1..]) else Flushes(m, lines[1..])
  }

  /** The messages sent for a whole digest. */
  function Chunks(lines: seq<string>): seq<string> {
    Flushes("", lines)
  }

  lemma ConcatCons(x: string, xs: seq<string>)
    ensures Concat([x] + xs) == x + Concat(xs)
  {
    assert ([x] + xs)[0] == x;
    assert ([x] + xs)[1..] == xs;
  }

  /** Nothing is lost, duplicated or reordered: the messages, read one after
      the other, are the accumulated text followed by the remaining lines. */
  lemma {:induction false} FlushesConcat(message: string, lines: seq<string>)
    ensures Concat(Flushes(message, lines)) == message + Concat(lines)
    decreases |lines|
  {
    if lines == [] {
      assert message + "" == message;
    } else {
      var m := message + lines[0];
      FlushesConcat(if |m| > Budget then "" else m, lines[1..]);
      if |m| > Budget {
        ConcatCons(m, Flushes("", lines[1..]));
      }
      AppendAssoc(message, lines[0], Concat(lines[1..]));
    }
  }

  /** No empty message is ever sent. */
  lemma {:induction false} FlushesNonEmpty(message: string, lines: seq<string>)
    ensures forall j :: 0 <= j < |Flushes(message, lines)| ==> Flushes(message, lines)[j] != ""
    decreases |lines|
  {
    if lines != [] {
      var m := message + lines[0];
      FlushesNonEmpty(if |m| > Budget then "" else m, lines[1..]);
    }
  }

  /** Every message but the last is longer than the budget: a message is
      sent early only because it overflowed. */
  lemma {:induction false} FlushesFull(message: string, lines: seq<string>)
    ensures forall j :: 0 <= j < |Flushes(message, lines)| - 1 ==> |Flushes(message, lines)[j]| > Budget
    decreases |lines|
  {
    if lines != [] {
      var m := message + lines[0];
      FlushesFull(if |m| > Budget then "" else m, lines[1..]);
    }
  }

  /** A message exceeds the budget by at most one line: when no line is
      longer than `longest`, no message is longer than Budget + longest. */
  lemma {:induction false} FlushesBounded(message: string, lines: seq<string>, longest: nat)
    requires |message| <= Budget
    requires forall i :: 0 <= i < |lines| ==> |lines[i]| <= longest
    ensures forall j :: 0 <= j < |Flushes(message, lines)| ==> |Flushes(message, lines)[j]| <= Budget + longest
    decreases |lines|
  {
    if lines != [] {
      var m := message + lines[0];
      forall i | 0 <= i < |lines[1..]| ensures |lines[1..][i]| <= longest {
        assert lines[1..][i] == lines[i + 1];
      }
      FlushesBounded(if |m| > Budget then "" else m, lines[1..], longest);
    }
  }

  /** Accumulating the first n lines onto `message` is accumulating the
      first line, then the next n - 1. */
  lemma ConcatShift(message: string, lines: seq<string>, n: nat)
    requires 1 <= n <= |lines|
    ensures message + Concat(lines[..n]) == (message + lines[0]) + Concat(lines[1..][..n - 1])
  {
    assert lines[..n][0] == lines[0];
    assert lines[..n][1..] == lines[1..][..n - 1];
    AppendAssoc(message, lines[0], Concat(lines[1..][..n - 1]));
  }

  /** The first message sent is exactly the accumulated text up to and
      including the first line that takes it past the budget, and sending
      starts afresh after that line. */
  lemma {:induction false} FlushesHead(message: string, lines: seq<string>, k: nat)
    requires k < |lines|
    requires forall n :: 1 <= n <= k ==> |message + Concat(lines[..n])| <= Budget
    requires |message + Concat(lines[..k + 1])| > Budget
    ensures Flushes(message, lines) == [message + Concat(lines[..k + 1])] + Flushes("", lines[k + 1..])
    decreases k
  {
    var m := message + lines[0];
    ConcatShift(message, lines, k + 1);
    if k == 0 {
      assert lines[1..][..0] == [];
      assert m + "" == m;
    } else {
      ConcatShift(message, lines, 1);
      assert lines[1..][..0] == [];
      assert m + "" == m;
      forall n | 1 <= n <= k - 1
        ensures |m + Concat(lines[1..][..n])| <= Budget
      {
        ConcatShift(message, lines, n + 1);
      }
      assert lines[1..][k..] == lines[k + 1..];
      FlushesHead(m, lines[1..], k - 1);
    }
  }

  /** A digest that fits the budget goes out as one message (none at all
      when it is empty). */
  lemma {:induction false} FlushesShort(message: string, lines: seq<string>)
    requires |message + Concat(lines)| <= Budget
    ensures Flushes(message, lines) == if message + Concat(lines) != "" then [message + Concat(lines)] else []
    decreases |lines|
  {
    if lines == [] {
      assert message + "" == message;
    } else {
      var m := message + lines[0];
      AppendAssoc(message, lines[0], Concat(lines[1..]));
      FlushesShort(m, lines[1..]);
    }
  }

  /** The properties above for the messages of a whole digest. */
  lemma ChunksSpec(lines: seq<string>)
    ensures Concat(Chunks(lines)) == Concat(lines)
    ensures forall j :: 0 <= j < |Chunks(lines)| ==> Chunks(lines)[j] != ""
    ensures forall j :: 0 <= j < |Chunks(lines)| - 1 ==> |Chunks(lines)[j]| > Budget
    ensures |Concat(lines)| <= Budget ==> Chunks(lines) == if Concat(lines) != "" then [Concat(lines)] else []
  {
    FlushesConcat("", lines);
    FlushesNonEmpty("", lines);
    FlushesFull("", lines);
    assert "" + Concat(lines) == Concat(lines);
    if |Concat(lines)| <= Budget {
      FlushesShort("", lines);
    }
  }

  /** Telegram's limit holds as long as no line is longer than the margin
      between it and the budget. */
  lemma ChunksWithinLimit(lines: seq<string>)
    requires forall i :: 0 <= i < |lines| ==> |lines[i]| <= TelegramLimit - Budget
    ensures forall j :: 0 <= j < |Chunks(lines)| ==> |Chunks(lines)[j]| <= TelegramLimit
  {
    FlushesBounded("", lines, TelegramLimit - Budget);
  }

  /** A line at the head of a digest that is longer than Telegram's limit
      is sent by itself, as one message over the limit: the check comes
      after the line has been appended. */
  lemma OversizeLineSentWhole(line: string, rest: seq<string>)
    requires |line| > TelegramLimit
    ensures Chunks([line] + rest)[0] == line
    ensures |Chunks([line] + rest)[0]| > TelegramLimit
  {
    assert ([line] + rest)[0] == line;
    assert "" + line == line;
  }

  // ---------------------------------------------------------------------
  // the ordinal-to-link map

  /** The map lines 90 and 94 build: str(k) to the link of the k-th record. */
  function ResultIndex(items: seq<Listing>): map<string, string>
    decreases |items|
  {
    if items == [] then map[]
    else ResultIndex(items[..|items| - 1])[DecimalOf(|items|) := items[|items| - 1].link]
  }

  /** key is str(k) for one of the ordinals 1 .. n. */
  ghost predicate IsOrdinal(key: string, n: nat) {
    exists k :: 1 <= k <= n && key == DecimalOf(k)
  }

  /** Key str(k) holds the link of the k-th record. */
  lemma {:induction false} ResultIndexLinks(items: seq<Listing>)
    ensures forall k :: 1 <= k <= |items| ==> DecimalOf(k) in ResultIndex(items) && ResultIndex(items)[DecimalOf(k)] == items[k - 1].link
    decreases |items|
  {
    if items != [] {
      var n := |items|;
      var init := items[..n - 1];
      ResultIndexLinks(init);
      forall k | 1 <= k <= n
        ensures DecimalOf(k) in ResultIndex(items) && ResultIndex(items)[DecimalOf(k)] == items[k - 1].link
      {
        if k < n {
          DecimalInjective(k, n);
          assert init[k - 1] == items[k - 1];
        }
      }
    }
  }

  /** The keys are exactly "1" .. str(n) for n records. */
  lemma {:induction false} ResultIndexKeys(items: seq<Listing>)
    ensures forall key :: key in ResultIndex(items) <==> IsOrdinal(key, |items|)
    decreases |items|
  {
    if items != [] {
      var n := |items|;
      var init := items[..n - 1];
      ResultIndexKeys(init);
      forall key ensures key in ResultIndex(items) <==> IsOrdinal(key, n) {
        if key in ResultIndex(items) {
          if key == DecimalOf(n) {
            assert IsOrdinal(key, n);
          } else {
            assert IsOrdinal(key, n - 1);
            var k :| 1 <= k <= n - 1 && key == DecimalOf(k);
            assert IsOrdinal(key, n);
          }
        }
        if IsOrdinal(key, n) {
          var k :| 1 <= k <= n && key == DecimalOf(k);
          if k < n {
            assert IsOrdinal(key, n - 1);
          }
        }
      }
    }
  }

  /** "0", or an ordinal past the last record, is never a key. */
  lemma ResultIndexMisses(items: seq<Listing>, k: nat)
    requires k == 0 || k > |items|
    ensures DecimalOf(k) !in ResultIndex(items)
  {
    ResultIndexKeys(items);
    if DecimalOf(k) in ResultIndex(items) {
      var j :| 1 <= j <= |items| && DecimalOf(k) == DecimalOf(j);
      DecimalInjective(j, k);
    }
  }

  // ---------------------------------------------------------------------
  // the loop itself

  /** Lines 89-102: the messages sent, in order, and the map that line 104
      stores. */
  method FormatDigest(items: seq<Listing>) returns (sent: seq<string>, details: map<string, string>)
    ensures sent == Chunks(Lines(items))
    ensures details == ResultIndex(items)
  {
    ghost var lines := Lines(items);
    var message := "";
    sent := [];
    details := map[];
    for idx := 0 to |items|
      invariant sent + Flushes(message, lines[idx..]) == Chunks(lines)
      invariant details == ResultIndex(items[..idx])
    {
      assert lines[idx..][0] == Line(idx + 1, items[idx]);
      assert lines[idx..][1..] == lines[idx + 1..];
      assert items[..idx + 1][..idx] == items[..idx];
      message := message + Line(idx + 1, items[idx]);
      details := details[DecimalOf(idx + 1) := items[idx].link];
      if |message| > Budget {
        AppendAssoc(sent, [message], Flushes("", lines[idx + 1..]));
        sent := sent + [message];
        message := "";
      }
    }
    assert lines[|items|..] == [];
    assert items[..|items|] == items;
    if message != "" {
      sent := sent + [message];
    }
  }
}
