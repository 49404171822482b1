/**
 * Machines that take one input item at a time, make outputs and may give up. Every resumable parser of
 * the pipeline is such a machine, so that cutting its input is harmless is proved once, here.
 */
module Machine {
  import opened Bytes

  /** The state reached, the outputs made, and false when the machine gave up. */
  datatype Run<S, O> = Run(st: S, out: seq<O>, ok: bool)

  type Step<!S, !I, O> = (S, I) -> Run<S, O>

  /** Feeds the items one by one until they are used up or the machine gives up. */
  function Feed<S, I, O>(step: Step<S, I, O>, s: S, d: seq<I>): Run<S, O>
    decreases |d|, 0
  {
    if d == [] then Run(s, [], true) else Then(step, step(s, d[0]), d[1..])
  }

  /** Continues a run with more items. */
  function Then<S, I, O>(step: Step<S, I, O>, r: Run<S, O>, d: seq<I>): Run<S, O>
    decreases |d|, 1
  {
    if !r.ok then r
    else
      var rest := Feed(step, r.st, d);
      Run(rest.st, r.out + rest.out, rest.ok)
  }

  /** Split invariance: one call on `a + b` is two calls, on `a` and then on `b`. */
  lemma {:induction false} FeedSplit<S, I, O>(step: Step<S, I, O>, s: S, a: seq<I>, b: seq<I>)
    ensures Feed(step, s, a + b) == Then(step, Feed(step, s, a), b)
    decreases |a|
  {
    if a == [] {
      assert a + b == b;
      var o := Feed(step, s, b).out;
      assert [] + o == o;
    } else {
      assert (a + b)[1..] == a[1..] + b;
      var r := step(s, a[0]);
      FeedSplit(step, r.st, a[1..], b);
      var x, y := Feed(step, r.st, a[1..]), Feed(step, Feed(step, r.st, a[1..]).st, b);
      assert r.out + (x.out + y.out) == r.out + x.out + y.out;
    }
  }

  lemma FeedNone<S, I, O>(step: Step<S, I, O>, s: S)
    ensures Feed(step, s, []) == Run(s, [], true)
  {
  }

  /** A prefix that makes no output only moves the state. */
  lemma FeedQuiet<S, I, O>(step: Step<S, I, O>, s: S, a: seq<I>, s1: S, b: seq<I>)
    requires Feed(step, s, a) == Run(s1, [], true)
    ensures Feed(step, s, a + b) == Feed(step, s1, b)
  {
    FeedSplit(step, s, a, b);
    var o := Feed(step, s1, b).out;
    assert [] + o == o;
  }

  /** A prefix with a known successful outcome. */
  lemma FeedThen<S, I, O>(step: Step<S, I, O>, s: S, a: seq<I>, r: Run<S, O>, b: seq<I>)
    requires Feed(step, s, a) == r && r.ok
    ensures var rest := Feed(step, r.st, b);
            Feed(step, s, a + b) == Run(rest.st, r.out + rest.out, rest.ok)
  {
    FeedSplit(step, s, a, b);
  }

  /** Nothing after a failure counts. */
  lemma FeedFailed<S, I, O>(step: Step<S, I, O>, s: S, a: seq<I>, b: seq<I>)
    requires !Feed(step, s, a).ok
    ensures Feed(step, s, a + b) == Feed(step, s, a)
  {
    FeedSplit(step, s, a, b);
  }

  lemma FeedOne<S, I, O>(step: Step<S, I, O>, s: S, x: I)
    ensures Feed(step, s, [x]) == step(s, x)
  {
    var r := step(s, x);
    assert [x][1..] == [];
    assert Feed(step, r.st, []) == Run(r.st, [], true);
    assert r.out + [] == r.out;
  }

  /** The last item of an input, with empty outputs left out. */
  lemma FeedLast<S, I, O>(step: Step<S, I, O>, s: S, d: seq<I>)
    requires d != []
    ensures var last := |d| - 1;
            var r := Feed(step, s, d[..last]);
            var q := step(r.st, d[last]);
            Feed(step, s, d) ==
            if !r.ok then r else Run(q.st, if r.out == [] then q.out else if q.out == [] then r.out else r.out + q.out, q.ok)
  {
    var last := |d| - 1;
    assert d == d[..last] + [d[last]];
    FeedSplit(step, s, d[..last], [d[last]]);
    var r := Feed(step, s, d[..last]);
    FeedOne(step, r.st, d[last]);
    var q := step(r.st, d[last]);
    assert r.out + [] == r.out && [] + q.out == q.out;
  }

  /** A network delivers its input in pieces of any size. */
  function FeedAll<S, I, O>(step: Step<S, I, O>, s: S, pieces: seq<seq<I>>): Run<S, O>
    decreases |pieces|
  {
    if pieces == [] then Run(s, [], true)
    else
      var r := Feed(step, s, pieces[0]);
      if !r.ok then r
      else
        var rest := FeedAll(step, r.st, pieces[1..]);
        Run(rest.st, r.out + rest.out, rest.ok)
  }

  /** However the input is cut, the outcome is that of the whole input. */
  lemma {:induction false} AnyCut<S, I, O>(step: Step<S, I, O>, s: S, pieces: seq<seq<I>>)
    ensures FeedAll(step, s, pieces) == Feed(step, s, Flatten(pieces))
    decreases |pieces|
  {
    if pieces != [] {
      FeedSplit(step, s, pieces[0], Flatten(pieces[1..]));
      AnyCut(step, Feed(step, s, pieces[0]).st, pieces[1..]);
    }
  }
}
