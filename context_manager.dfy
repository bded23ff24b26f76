/**
 * tools/context_manager.py: the shared context, a list of entries that keeps
 * only the most recent 1000. The two queries hand the list to the language
 * model; their answers are oracle parameters here.
 */
module ContextManagement {

  /** The most entries the context keeps. */
  const Limit: nat := 1000

  /** xs[-n:] for n > 0: the last n elements, or all of them when there are fewer. */
  function KeepLast<E>(xs: seq<E>, n: nat): (r: seq<E>)
    ensures |r| == if |xs| < n then |xs| else n
    ensures r == xs[|xs| - |r|..]
  {
    if |xs| <= n then xs else xs[|xs| - n..]
  }

  /**
   * The context after add_to_context: the entry appended, then only the last
   * Limit kept. Below the limit nothing is dropped; at the limit exactly the
   * oldest entry is, and the others keep their order.
   */
  function Added<E>(context: seq<E>, entry: E): (r: seq<E>)
    ensures |r| <= Limit && r != [] && r[|r| - 1] == entry
    ensures |context| < Limit ==> r == context + [entry]
    ensures |context| == Limit ==> r == context[1..] + [entry]
  {
    var xs := context + [entry];
    assert |context| == Limit ==> xs[1..] == context[1..] + [entry];
    KeepLast(xs, Limit)
  }

  /**
   * The window slides: keeping the last n of (the last n of a stream, plus
   * one more entry) is keeping the last n of the longer stream.
   */
  lemma {:induction false} KeepLastSlides<E>(stream: seq<E>, entry: E, n: nat)
    requires n > 0
    ensures KeepLast(KeepLast(stream, n) + [entry], n) == KeepLast(stream + [entry], n)
  {
    var w := KeepLast(stream, n);
    var longer := stream + [entry];
    assert w + [entry] == longer[|stream| - |w|..];
    var r1 := KeepLast(w + [entry], n);
    var r2 := KeepLast(longer, n);
    assert |r1| == |r2|;
    forall k | 0 <= k < |r1| ensures r1[k] == r2[k] {
      assert r1[k] == (w + [entry])[|w| + 1 - |r1| + k];
    }
  }

  class ContextManager<E> {
    var context: seq<E>
    /** Every entry ever added, oldest first. */
    ghost var added: seq<E>

    /** The context is the last Limit entries ever added. */
    ghost predicate Valid()
      reads this
    {
      context == KeepLast(added, Limit)
    }

    /** A new manager has an empty context. */
    constructor ()
      ensures Valid() && context == [] && added == []
    {
      context := [];
      added := [];
    }

    /** add_to_context: appends the entry, then drops entries from the front until at most Limit remain. */
    method AddToContext(entry: E)
      requires Valid()
      modifies this
      ensures Valid() && added == old(added) + [entry]
      ensures context == Added(old(context), entry)
    {
      KeepLastSlides(added, entry, Limit);
      added := added + [entry];
      context := context + [entry];
      if |context| > Limit {
        context := context[|context| - Limit..];
      }
    }

    /** get_relevant_context: the model's answer for the query, the overview and the whole context; nothing changes. */
    method GetRelevantContext(query: string, projectOverview: string, answer: (string, string, seq<E>) -> string)
      returns (r: string)
      ensures r == answer(query, projectOverview, context)
    {
      r := answer(query, projectOverview, context);
    }

    /** summarize_for_new_agent: the model's summary for the role, the task, the overview and the whole context; nothing changes. */
    method SummarizeForNewAgent(agentRole: string, taskDescription: string, projectOverview: string,
                                summarize: (string, string, string, seq<E>) -> string)
      returns (r: string)
      ensures r == summarize(agentRole, taskDescription, projectOverview, context)
    {
      r := summarize(agentRole, taskDescription, projectOverview, context);
    }
  }

  /** A run of additions to a new manager leaves the last Limit of them, in the order they were added. */
  lemma {:induction false} ContextOfRun<E>(entries: seq<E>)
    ensures AddedAll([], entries) == KeepLast(entries, Limit)
  {
    var none: seq<E> := [];
    assert KeepLast(none, Limit) == none && none + entries == entries;
    AddedAllKeepsLast(none, entries);
  }

  /** The context after adding each entry in turn. */
  function AddedAll<E>(context: seq<E>, entries: seq<E>): seq<E>
    decreases |entries|
  {
    if entries == [] then context
    else AddedAll(Added(context, entries[0]), entries[1..])
  }

  lemma {:induction false} AddedAllKeepsLast<E>(stream: seq<E>, entries: seq<E>)
    ensures AddedAll(KeepLast(stream, Limit), entries) == KeepLast(stream + entries, Limit)
    decreases |entries|
  {
    if entries == [] {
      assert stream + entries == stream;
    } else {
      KeepLastSlides(stream, entries[0], Limit);
      AddedAllKeepsLast(stream + [entries[0]], entries[1..]);
      assert stream + [entries[0]] + entries[1..] == stream + entries;
    }
  }
}
