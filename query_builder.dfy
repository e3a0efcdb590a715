/**
 * `QueryBuilder` (Utils/QueryBuilder.cs): collects `key=value` entries in a
 * list it appends to, and renders them as a URL query string.
 */
module QueryBuilders {
  import opened Text
  import opened UriEscape

  /** The entry `Add(key, value)` stores: both halves escaped, joined by '='. */
  function Entry(key: string, value: string): string
  {
    Escape(key) + "=" + Escape(value)
  }

  /** The entries stored for a list of (key, value) pairs, in the same order. */
  function Entries(pairs: seq<(string, string)>): (entries: seq<string>)
    ensures |entries| == |pairs|
    ensures forall i :: 0 <= i < |pairs| ==> entries[i] == Entry(pairs[i].0, pairs[i].1)
  {
    if pairs == [] then [] else Entries(pairs[..|pairs| - 1]) + [Entry(pairs[|pairs| - 1].0, pairs[|pairs| - 1].1)]
  }

  /** What `ToString` renders for a list of entries: '?' then the entries joined by '&'. */
  function Render(entries: seq<string>): string
  {
    "?" + Join('&', entries)
  }

  class QueryBuilder {
    /** The `_queryParameters` list. */
    var queryParameters: seq<string>
    /** The (key, value) pairs given to `Add`, in order. */
    ghost var added: seq<(string, string)>

    ghost predicate Valid()
      reads this
    {
      queryParameters == Entries(added)
    }

    constructor ()
      ensures Valid()
      ensures queryParameters == [] && added == []
    {
      queryParameters := [];
      added := [];
    }

    /** Appends one entry at the end; the earlier entries stay as they were. */
    method Add(key: string, value: string)
      requires Valid()
      modifies this
      ensures Valid()
      ensures added == old(added) + [(key, value)]
      ensures queryParameters == old(queryParameters) + [Entry(key, value)]
    {
      queryParameters := queryParameters + [Entry(key, value)];
      added := added + [(key, value)];
      assert added[..|added| - 1] == old(added);
    }

    /**
     * `ToString()`: reads the builder without changing it. The text starts
     * with '?', holds one '&' fewer than there are entries, and splitting
     * what follows the '?' on '&', then each piece on '=', gives back the
     * escaped keys and values in the order they were added.
     */
    function ToString(): (s: string)
      requires Valid()
      reads this
      ensures |s| >= 1 && s[0] == '?'
      ensures queryParameters == [] ==> s == "?"
      ensures queryParameters != [] ==> CountChar('&', s) == |queryParameters| - 1
      ensures queryParameters != [] ==> Split('&', s[1..]) == queryParameters
      ensures forall i :: 0 <= i < |added| ==>
        Split('=', queryParameters[i]) == [Escape(added[i].0), Escape(added[i].1)]
    {
      EntriesSplit(added, queryParameters);
      Render(queryParameters)
    }
  }

  /** Each stored entry splits on '=' into its escaped key and value. */
  lemma EntrySplit(key: string, value: string)
    ensures Split('=', Entry(key, value)) == [Escape(key), Escape(value)]
    ensures '&' !in Entry(key, value)
  {
    EscapeAlphabet(key);
    EscapeAlphabet(value);
    SplitAtFirstSeparator('=', Escape(key), Escape(value));
    SplitWithoutSeparator('=', Escape(value));
  }

  lemma EntriesSplitEach(added: seq<(string, string)>, entries: seq<string>)
    requires entries == Entries(added)
    ensures forall i :: 0 <= i < |entries| ==> '&' !in entries[i]
    ensures forall i :: 0 <= i < |added| ==> Split('=', entries[i]) == [Escape(added[i].0), Escape(added[i].1)]
  {
    forall i | 0 <= i < |added|
      ensures '&' !in entries[i]
      ensures Split('=', entries[i]) == [Escape(added[i].0), Escape(added[i].1)]
    {
      EntrySplit(added[i].0, added[i].1);
    }
  }

  lemma EntriesSplit(added: seq<(string, string)>, entries: seq<string>)
    requires entries == Entries(added)
    ensures forall i :: 0 <= i < |entries| ==> '&' !in entries[i]
    ensures forall i :: 0 <= i < |added| ==> Split('=', entries[i]) == [Escape(added[i].0), Escape(added[i].1)]
    ensures |entries| >= 1 ==> Split('&', Render(entries)[1..]) == entries
    ensures |entries| >= 1 ==> CountChar('&', Render(entries)) == |entries| - 1
  {
    EntriesSplitEach(added, entries);
    if |entries| >= 1 {
      assert Render(entries)[1..] == Join('&', entries);
      SplitJoin('&', entries);
      JoinSeparatorCount('&', entries);
      CountCharAppend('&', "?", Join('&', entries));
    }
  }

  /** A builder to which nothing was added renders as exactly "?". */
  method FreshBuilderRendersQuestionMark() returns (s: string)
    ensures s == "?"
  {
    var builder := new QueryBuilder();
    s := builder.ToString();
  }
}
