/**
 * The home page's state: the results on display, the history of past crawls
 * (newest first, at most ten kept) and the copy of the history kept in the
 * browser's storage under one key.
 */
module HomePage {
  import opened Pages

  const MaxHistoryItems: nat := 10

  /** One past crawl: when it finished, the URL it is listed under, and its pages. */
  datatype HistoryItem = HistoryItem(timestamp: string, url: string, results: seq<CrawlResult>)

  /**
   * The storage entry as the page finds it: missing (or empty), holding a
   * history that parses, or holding text that does not parse.
   */
  datatype Stored = Absent | Saved(items: seq<HistoryItem>) | Unparsable

  /** The item a new crawl adds: listed under its first page's URL, or under "" when it has no pages. */
  function NewHistoryItem(newResults: seq<CrawlResult>, timestamp: string): (item: HistoryItem)
    ensures item.results == newResults && item.timestamp == timestamp
    ensures newResults == [] ==> item.url == ""
    ensures newResults != [] ==> item.url == newResults[0].url
  {
    HistoryItem(timestamp, if newResults == [] then "" else newResults[0].url, newResults)
  }

  /** The first `n` elements of `s`, or all of `s` when it is shorter (Array.prototype.slice(0, n)). */
  function Take<T>(s: seq<T>, n: nat): (r: seq<T>)
    ensures |r| == if |s| < n then |s| else n
    ensures r == s[..|r|]
  {
    if |s| <= n then s else s[..n]
  }

  /**
   * The history after a crawl: the new item in front, then the old history
   * in its order, cut to the capacity.
   */
  function AddToHistory(item: HistoryItem, history: seq<HistoryItem>): (h: seq<HistoryItem>)
    ensures |h| == if |history| < MaxHistoryItems then |history| + 1 else MaxHistoryItems
    ensures h[0] == item
    ensures forall i :: 1 <= i < |h| ==> h[i] == history[i - 1]
  {
    Take([item] + history, MaxHistoryItems)
  }

  /**
   * Nothing but the oldest entries is ever dropped: below capacity the whole
   * old history is kept, and at capacity exactly its last entry goes.
   */
  lemma AddToHistoryEvicts(item: HistoryItem, history: seq<HistoryItem>)
    ensures |history| < MaxHistoryItems ==> AddToHistory(item, history) == [item] + history
    ensures |history| == MaxHistoryItems ==>
      AddToHistory(item, history) == [item] + history[..MaxHistoryItems - 1]
    ensures |history| >= MaxHistoryItems ==> |AddToHistory(item, history)| == MaxHistoryItems
  {
    if |history| >= MaxHistoryItems {
      assert ([item] + history)[..MaxHistoryItems] == [item] + history[..MaxHistoryItems - 1];
    }
  }

  /** Crawls added one after the other, the first of `items` first. */
  function AddAll(items: seq<HistoryItem>, history: seq<HistoryItem>): seq<HistoryItem> {
    if items == [] then history else AddAll(items[1..], AddToHistory(items[0], history))
  }

  function Reverse<T>(s: seq<T>): (r: seq<T>)
    ensures |r| == |s|
    ensures forall i :: 0 <= i < |s| ==> r[i] == s[|s| - 1 - i]
  {
    if s == [] then [] else Reverse(s[1..]) + [s[0]]
  }

  /**
   * After one or more crawls the history holds the ten most recent ones,
   * newest first, followed by what was there before while room remains,
   * however long the history was to begin with.
   */
  lemma {:induction false} AddAllKeepsNewest(items: seq<HistoryItem>, history: seq<HistoryItem>)
    requires items != []
    ensures AddAll(items, history) == Take(Reverse(items) + history, MaxHistoryItems)
  {
    var x, rest := items[0], items[1..];
    assert Reverse(items) == Reverse(rest) + [x];
    if rest == [] {
      assert AddAll(items, history) == AddToHistory(x, history);
      assert Reverse(items) + history == [x] + history;
    } else {
      AddAllKeepsNewest(rest, AddToHistory(x, history));
      var r := Reverse(rest);
      calc {
        AddAll(items, history);
        Take(r + AddToHistory(x, history), MaxHistoryItems);
        { TakeAppendTake(r, [x] + history, MaxHistoryItems); }
        Take(r + ([x] + history), MaxHistoryItems);
        { assert r + ([x] + history) == Reverse(items) + history; }
        Take(Reverse(items) + history, MaxHistoryItems);
      }
    }
  }

  /** Cutting the tail of a sequence before a prefix is put in front changes nothing once cut again. */
  lemma TakeAppendTake(p: seq<HistoryItem>, s: seq<HistoryItem>, n: nat)
    ensures Take(p + Take(s, n), n) == Take(p + s, n)
  {
    var a, b := Take(p + Take(s, n), n), Take(p + s, n);
    assert |a| == |b|;
    forall i | 0 <= i < |a| ensures a[i] == b[i] {
      if i >= |p| {
        assert (p + Take(s, n))[i] == Take(s, n)[i - |p|];
      }
    }
  }

  /** The home page's state fields and the storage entry they are written through to. */
  class HistoryStore {
    var results: seq<CrawlResult>
    var history: seq<HistoryItem>
    var stored: Stored

    /** A fresh page: nothing displayed, no history yet, the storage as it was left. */
    constructor(saved: Stored)
      ensures results == [] && history == [] && stored == saved
    {
      results := [];
      history := [];
      stored := saved;
    }

    /** The mount effect: a parsable entry becomes the history; anything else leaves it as it is. */
    method LoadOnMount()
      modifies this
      ensures stored.Saved? ==> history == stored.items
      ensures !stored.Saved? ==> history == old(history)
      ensures results == old(results) && stored == old(stored)
    {
      if stored.Saved? {
        history := stored.items;
      }
    }

    /**
     * A finished crawl: its pages go on display, a new item is put in front
     * of the history, the history is cut to capacity and written to storage.
     */
    method HandleResults(newResults: seq<CrawlResult>, timestamp: string)
      modifies this
      ensures results == newResults
      ensures history == AddToHistory(NewHistoryItem(newResults, timestamp), old(history))
      ensures |history| <= MaxHistoryItems && history[0].results == newResults
      ensures stored == Saved(history)
    {
      results := newResults;
      var item := NewHistoryItem(newResults, timestamp);
      var updated := AddToHistory(item, history);
      history := updated;
      stored := Saved(updated);
    }

    /** Clearing: no history in memory and no entry in storage; the displayed results stay. */
    method HandleClearHistory()
      modifies this
      ensures history == [] && stored == Absent
      ensures results == old(results)
    {
      history := [];
      stored := Absent;
    }

    /** Choosing a past crawl displays its pages and leaves the history and storage alone. */
    method HandleSelectHistory(historyResults: seq<CrawlResult>)
      modifies this
      ensures results == historyResults
      ensures history == old(history) && stored == old(stored)
    {
      results := historyResults;
    }
  }
}
