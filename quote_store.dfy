/**
 * The page's quote list and the operations that change it: adding a quote
 * from the form, showing a random quote (and remembering which), merging the
 * stored list at start-up, importing a JSON file, and restoring the last
 * viewed quote.
 *
 * Browser storage is represented by two ghost fields that record what the
 * page last wrote: `saved` for the "quotes" key of local storage and
 * `lastViewed` for the "lastQuoteIndex" key of session storage. What the page
 * reads back from storage, and the outcome of `JSON.parse`, are parameters.
 */
module QuoteApp {
  import opened Quotes

  /** What `JSON.parse` made of a text: it threw, or gave a non-array, or gave an array. */
  datatype ParseResult = ParseError | NotArray | Array(items: seq<Quote>)

  /**
   * What `localStorage.getItem('quotes')` gave: nothing usable (missing or the
   * empty string, both falsy), or a text and what `JSON.parse` makes of it.
   */
  datatype StoredEntry = Absent | Stored(payload: ParseResult)

  const NoQuotesMessage: string := "No quotes available."
  const ImportedMessage: string := "Quotes imported successfully!"
  const InvalidFormatMessage: string := "Invalid JSON format."
  const ParseErrorMessage: string := "Error parsing JSON file."

  /**
   * The text put into the quote display for one record: the quote's text in
   * double quotes, then a space and its category in parentheses.
   */
  function Render(q: Quote): (r: string)
    ensures |r| == |q.text| + |q.category| + 5
    ensures r[0] == '"' && r[1..|q.text| + 1] == q.text && r[|q.text| + 1..|q.text| + 4] == "\" ("
    ensures r[|q.text| + 4..|r| - 1] == q.category && r[|r| - 1] == ')'
  {
    "\"" + q.text + "\" (" + q.category + ")"
  }

  class QuoteStore {
    /** The in-memory list, in insertion order. */
    var quotes: seq<Quote>
    /** The list as last written to local storage, if this page has written it. */
    ghost var saved: Option<seq<Quote>>
    /** The index last written to session storage, if this page has written one. */
    ghost var lastViewed: Option<nat>

    /**
     * The index last shown names an entry, and the last saved list is a
     * prefix of the current one. Every method keeps this because it only
     * appends to the list, as its `ensures` on `quotes` says.
     */
    ghost predicate Valid()
      reads this
    {
      && (lastViewed.Some? ==> lastViewed.value < |quotes|)
      && (saved.Some? ==> saved.value <= quotes)
    }

    constructor ()
      ensures Valid()
      ensures quotes == Seed() && saved == None && lastViewed == None
    {
      quotes := Seed();
      saved := None;
      lastViewed := None;
    }

    /**
     * Shows a quote picked at random: on an empty list the "no quotes"
     * message and nothing else; otherwise the quote at some index below the
     * length, which is recorded as last viewed, and the list is saved.
     */
    method ShowRandomQuote() returns (display: string, index: Option<nat>)
      requires Valid()
      modifies this
      ensures Valid() && quotes == old(quotes)
      ensures quotes == [] ==>
        display == NoQuotesMessage && index == None &&
        saved == old(saved) && lastViewed == old(lastViewed)
      ensures quotes != [] ==>
        index.Some? && index.value < |quotes| &&
        display == Render(quotes[index.value]) &&
        lastViewed == index && saved == Some(quotes)
    {
      if |quotes| == 0 {
        display, index := NoQuotesMessage, None;
        return;
      }
      var i :| 0 <= i < |quotes|;
      display := Render(quotes[i]);
      lastViewed := Some(i);
      saved := Some(quotes);
      index := Some(i);
    }

    /**
     * Adds the trimmed form inputs as a new record when neither is blank,
     * saves the list and shows a random quote; with a blank input nothing
     * changes and nothing is shown.
     */
    method AddQuote(text: string, category: string) returns (added: bool, display: Option<string>)
      requires Valid()
      modifies this
      ensures Valid()
      ensures added <==> !AllSpace(text) && !AllSpace(category)
      ensures added ==>
        quotes == old(quotes) + [Quote(Trim(text), Trim(category))] &&
        saved == Some(quotes) && lastViewed.Some? &&
        display == Some(Render(quotes[lastViewed.value]))
      ensures !added ==>
        quotes == old(quotes) && saved == old(saved) &&
        lastViewed == old(lastViewed) && display == None
    {
      var candidate := Validate(text, category);
      added := candidate.Some?;
      if !added {
        display := None;
        return;
      }
      quotes := quotes + [candidate.value];
      saved := Some(quotes);
      var shown, _ := ShowRandomQuote();
      display := Some(shown);
    }

    /**
     * `quotes.push(...cands.filter(q => !quotes.some(...)))`: appends, in
     * order, the candidates that match no record present before the call.
     */
    method MergeCandidates(cands: seq<Quote>)
      requires Valid()
      modifies this
      ensures Valid()
      ensures quotes == old(quotes) + Unmatched(old(quotes), cands)
      ensures saved == old(saved) && lastViewed == old(lastViewed)
    {
      var added := Unmatched(quotes, cands);
      quotes := quotes + added;
    }

    /**
     * Merges the list found in local storage. A payload that is not an array
     * is ignored; one that does not parse makes the call throw (`threw`),
     * leaving the list as it was.
     */
    method LoadQuotes(stored: StoredEntry) returns (threw: bool)
      requires Valid()
      modifies this
      ensures Valid()
      ensures threw <==> stored == Stored(ParseError)
      ensures stored.Stored? && stored.payload.Array? ==>
        quotes == old(quotes) + Unmatched(old(quotes), stored.payload.items)
      ensures !(stored.Stored? && stored.payload.Array?) ==> quotes == old(quotes)
      ensures saved == old(saved) && lastViewed == old(lastViewed)
    {
      threw := false;
      match stored {
        case Absent =>
        case Stored(ParseError) =>
          threw := true;
        case Stored(NotArray) =>
        case Stored(Array(items)) =>
          MergeCandidates(items);
      }
    }

    /**
     * The `onload` body of a JSON file import: an array is merged, the list
     * saved, success reported and a random quote shown; any other outcome
     * reports its error and changes nothing.
     */
    method ImportFromJsonFile(parsed: ParseResult) returns (alert: string, display: Option<string>)
      requires Valid()
      modifies this
      ensures Valid()
      ensures parsed.Array? ==>
        alert == ImportedMessage &&
        quotes == old(quotes) + Unmatched(old(quotes), parsed.items) &&
        saved == Some(quotes) && display.Some? &&
        (quotes == [] ==> display == Some(NoQuotesMessage) && lastViewed == old(lastViewed)) &&
        (quotes != [] ==> lastViewed.Some? && display == Some(Render(quotes[lastViewed.value])))
      ensures parsed == NotArray ==> alert == InvalidFormatMessage
      ensures parsed == ParseError ==> alert == ParseErrorMessage
      ensures !parsed.Array? ==>
        quotes == old(quotes) && saved == old(saved) &&
        lastViewed == old(lastViewed) && display == None
    {
      match parsed {
        case Array(items) =>
          MergeCandidates(items);
          saved := Some(quotes);
          alert := ImportedMessage;
          var shown, _ := ShowRandomQuote();
          display := Some(shown);
        case NotArray =>
          alert, display := InvalidFormatMessage, None;
        case ParseError =>
          alert, display := ParseErrorMessage, None;
      }
    }

    /**
     * Start-up display of the last viewed quote: shown only when the index
     * read from session storage names an existing entry.
     */
    method Restore(lastIndex: Option<int>) returns (display: Option<string>)
      ensures display.Some? <==> lastIndex.Some? && 0 <= lastIndex.value < |quotes|
      ensures display.Some? ==> display.value == Render(quotes[lastIndex.value])
    {
      if lastIndex.Some? && 0 <= lastIndex.value < |quotes| {
        display := Some(Render(quotes[lastIndex.value]));
      } else {
        display := None;
      }
    }

    /**
     * The DOMContentLoaded handler: merge the stored list, then restore the
     * last viewed quote. A stored payload that does not parse throws out of
     * the handler, so nothing is restored.
     */
    method Startup(stored: StoredEntry, lastIndex: Option<int>) returns (display: Option<string>)
      requires Valid()
      modifies this
      ensures Valid()
      ensures stored.Stored? && stored.payload.Array? ==>
        quotes == old(quotes) + Unmatched(old(quotes), stored.payload.items)
      ensures !(stored.Stored? && stored.payload.Array?) ==> quotes == old(quotes)
      ensures stored == Stored(ParseError) ==> display == None
      ensures stored != Stored(ParseError) ==>
        (display.Some? <==> lastIndex.Some? && 0 <= lastIndex.value < |quotes|) &&
        (display.Some? ==> display.value == Render(quotes[lastIndex.value]))
      ensures saved == old(saved) && lastViewed == old(lastViewed)
    {
      var threw := LoadQuotes(stored);
      if threw {
        display := None;
        return;
      }
      display := Restore(lastIndex);
    }
  }
}
