/** The /detail command (ebaybot.py, lines 107-122): the message text is
    split at single spaces, its second piece is looked up in the map the
    last successful search stored, and the reply gives the link or says the
    number is invalid. */
module Lookup {
  import opened Text
  import opened Listings
  import opened Digest

  // written in two pieces so that the verifier unfolds its characters
  const DetailUsage := "Bitte gib eine gültige Nummer an. " + "Beispiel: /detail 1"
  const InvalidNumber := "Ungültige Nummer. Bitte versuche es erneut."
  const LinkPrefix := "Hier ist der Link: "

  /** Lines 109-114: args[1] of text.split(" "), when there is one. */
  function Query(text: string): Option<string> {
    var args := Split(text, " ");
    if |args| < 2 then None else Some(args[1])
  }

  /** The reply to a /detail message; a link counts only when it is a
      non-empty string (line 119). */
  function DetailReply(text: string, details: map<string, string>): string {
    match Query(text)
    case None => DetailUsage
    case Some(q) =>
      if q in details && details[q] != "" then LinkPrefix + details[q] else InvalidNumber
  }

  /** The three replies are told apart by their first character. */
  lemma RepliesDistinct(link: string)
    ensures DetailUsage != InvalidNumber
    ensures (LinkPrefix + link)[0] == 'H' && DetailUsage[0] == 'B' && InvalidNumber[0] == 'U'
  {
    assert (LinkPrefix + link)[0] == LinkPrefix[0];
  }

  /** The usage text is the reply exactly when the message holds no space. */
  lemma UsageIffNoArgument(text: string, details: map<string, string>)
    ensures DetailReply(text, details) == DetailUsage <==> ' ' !in text
  {
    FindChar(text, ' ');
    RepliesDistinct(if Query(text).Some? && Query(text).value in details then details[Query(text).value] else "");
  }

  /** A link is given exactly when the queried key holds a non-empty link,
      and it is that link. */
  lemma LinkIffStored(text: string, details: map<string, string>, q: string)
    requires Query(text) == Some(q)
    ensures (exists link :: DetailReply(text, details) == LinkPrefix + link) <==> q in details && details[q] != ""
    ensures q in details && details[q] != "" ==> DetailReply(text, details) == LinkPrefix + details[q]
    ensures !(q in details && details[q] != "") ==> DetailReply(text, details) == InvalidNumber
  {
    if !(q in details && details[q] != "") {
      forall link ensures DetailReply(text, details) != LinkPrefix + link {
        RepliesDistinct(link);
      }
    } else {
      assert DetailReply(text, details) == LinkPrefix + details[q];
    }
  }

  /** Before any search the map is empty, so no message ever yields a link. */
  lemma NoLinkBeforeSearch(text: string)
    ensures DetailReply(text, map[]) == DetailUsage || DetailReply(text, map[]) == InvalidNumber
  {
  }

  /** The query of "/detail <s>" is s when s holds no space; anything after
      a further space is ignored. */
  lemma QueryOfCommand(s: string, tail: string)
    requires ' ' !in s
    ensures Query("/detail " + s) == Some(s)
    ensures Query("/detail " + s + " " + tail) == Some(s)
  {
    assert "/detail " + s == "/detail" + [' '] + s;
    SplitTwo("/detail", ' ', s);
    assert "/detail " + s + " " + tail == "/detail" + [' '] + (s + [' '] + tail);
    SplitCons("/detail", ' ', s + [' '] + tail);
    SplitCons(s, ' ', tail);
  }

  /** After a search that found the records `items`, "/detail k" answers
      with the link of the k-th record, provided that link is non-empty. */
  lemma DetailOfOrdinal(items: seq<Listing>, k: nat)
    requires 1 <= k <= |items| && items[k - 1].link != ""
    ensures DetailReply("/detail " + DecimalOf(k), ResultIndex(items)) == LinkPrefix + items[k - 1].link
  {
    DecimalHasNoSpace(k);
    QueryOfCommand(DecimalOf(k), "");
    ResultIndexLinks(items);
  }

  /** "/detail 0" and "/detail k" past the last record are invalid. */
  lemma DetailOutOfRange(items: seq<Listing>, k: nat)
    requires k == 0 || k > |items|
    ensures DetailReply("/detail " + DecimalOf(k), ResultIndex(items)) == InvalidNumber
  {
    DecimalHasNoSpace(k);
    QueryOfCommand(DecimalOf(k), "");
    ResultIndexMisses(items, k);
  }

  /** The keys carry no leading zeros: "/detail 01" is not "/detail 1". */
  lemma LeadingZeroInvalid(items: seq<Listing>, s: string)
    requires |s| >= 2 && s[0] == '0' && ' ' !in s
    ensures DetailReply("/detail " + s, ResultIndex(items)) == InvalidNumber
  {
    QueryOfCommand(s, "");
    ResultIndexKeys(items);
  }
}
