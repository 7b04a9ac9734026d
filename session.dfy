/** The two command handlers that carry state between messages
    (ebaybot.py, lines 59-122): /ebay stores the ordinal-to-link map of its
    last successful search in the user's data, and /detail reads it. One
    Session object stands for one user's `context.user_data`. */
module Bot {
  import opened Text
  import opened Query
  import opened Arguments
  import opened Listings
  import opened Digest
  import opened Lookup

  const SearchUsage := "Bitte gib einen Suchbegriff ein. Beispiel: /ebay laptop"
  const NothingFound := "Keine Angebote gefunden."

  class Session {
    /** `context.user_data['details']`; a user who has not searched yet
        reads the default of line 116, the empty map. */
    var details: map<string, string>

    constructor()
      ensures details == map[]
    {
      details := map[];
    }

    /** send_ebay_offers for the command arguments `args`. The page the
        request would fetch is the parameter `page`; `url` is the URL
        string line 33 passes to `requests.get`, `sent` the messages
        handed to `send_message`, in order, and `raised` tells that a
        container without a link ended the handler with an exception. The
        stored map changes only when records were found. */
    method Search(args: seq<string>, page: seq<Container>) returns (url: Option<string>, sent: seq<string>, raised: bool)
      modifies this
      ensures args == [] ==> url == None && sent == [SearchUsage] && !raised && details == old(details)
      ensures args != [] ==> url == Some(SearchUrl(args[0], ParsedFilters(args[1..])))
      ensures args != [] && Extract(page).None? ==> raised && sent == [] && details == old(details)
      ensures args != [] && Extract(page) == Some([]) ==> !raised && sent == [NothingFound] && details == old(details)
      ensures args != [] && Extract(page).Some? && Extract(page).value != [] ==>
        && !raised
        && sent == Chunks(Lines(Extract(page).value))
        && details == ResultIndex(Extract(page).value)
    {
      if args == [] {
        return None, [SearchUsage], false;
      }
      var keyword := args[0];
      var f := ParseFilters(args[1..]);
      var u := BuildSearchUrl(keyword, f);
      url := Some(u);
      var items := ExtractListings(page);
      match items
      case None =>
        sent, raised := [], true;
      case Some(records) =>
        raised := false;
        if records == [] {
          sent := [NothingFound];
        } else {
          var index;
          sent, index := FormatDigest(records);
          details := index;
        }
    }

    /** The detail handler: its reply to the message text `text`. */
    method Detail(text: string) returns (reply: string)
      ensures reply == DetailReply(text, details)
    {
      var args := Split(text, " ");
      if |args| < 2 {
        return DetailUsage;
      }
      var query := args[1];
      if query in details && details[query] != "" {
        reply := LinkPrefix + details[query];
      } else {
        reply := InvalidNumber;
      }
    }
  }
}
