// The steps of the two traversals of the memory store, on values: what taking
// one element off the queue leaves true (internal/storage/memory.go:324-396).
module Traversals {
  import opened Sequences
  import opened Tokens
  import opened Tuples
  import opened Resolution

  // ── Upwards ─────────────────────────────────────────────────────────────────

  /** The pairs found, in order; those still queued; and those passed on. */
  ghost predicate Climbing(L: set<Tuple>, email: string, order: seq<Pair>, held: set<Pair>, queue: seq<Pair>,
                           done: set<Pair>) {
    Lists(order, held) && Lists(queue, held - done) && Worklist(L, email, held, done)
  }

  /** Nothing has been passed on yet. */
  lemma ClimbStarts(L: set<Tuple>, email: string, order: seq<Pair>)
    requires Lists(order, Seeds(L, email))
    ensures Climbing(L, email, order, Elements(order), order, {})
  {
    HeldClosed(L, email);
    assert Elements(order) - {} == Elements(order);
  }

  /** The front of the queue is passed on; what it grants and was not held joins both lists. */
  lemma ClimbOn(L: set<Tuple>, email: string, order: seq<Pair>, held: set<Pair>, queue: seq<Pair>, done: set<Pair>,
                added: seq<Pair>)
    requires Climbing(L, email, order, held, queue, done) && queue != []
    requires Lists(added, Passed(L, {queue[0]}) - held)
    ensures Climbing(L, email, order + added, held + Elements(added), queue[1..] + added, done + {queue[0]})
    ensures Granted(L) - (held + Elements(added)) < Granted(L) - held
            || (held + Elements(added) == held && |queue[1..] + added| < |queue|)
  {
    var current, found := queue[0], Elements(added);
    ListsTail(queue, held - done);
    WorklistAdvances(L, email, held, done, {current});
    ListsConcat(order, held, added, found);
    ListsConcat(queue[1..], held - done - {current}, added, found);
    assert held + found - (done + {current}) == held - done - {current} + found;
    if added != [] {
      assert added[0] in found;
    }
  }

  /** With an empty queue everything held has been found. */
  lemma ClimbEnds(L: set<Tuple>, email: string, order: seq<Pair>, held: set<Pair>, done: set<Pair>)
    requires Climbing(L, email, order, held, [], done)
    ensures Lists(order, Held(L, email))
  {
    assert Elements<Pair>([]) == {};
    assert done == held - (held - done) == held;
    WorklistDone(L, email, held);
  }

  // ── Downwards ───────────────────────────────────────────────────────────────

  /** Some entries of a step: their tokens not seen before, each once, and the steps they lead to, repeats included. */
  ghost predicate Visited(T: set<Tuple>, seen: set<string>, listed: seq<string>, next: seq<Pair>) {
    Lists(listed, SubjectTokens(T) - seen) && Elements(next) == StepsOf(T)
  }

  lemma VisitPattern(T: set<Tuple>, seen: set<string>, listed: seq<string>, next: seq<Pair>, t: Tuple)
    requires Visited(T, seen, listed, next) && t.kind == Pattern
    ensures Visited(T + {t}, seen, listed, next)
  {
    OneMoreSubject(T, t);
  }

  /** The token of an entry, listed unless it was. */
  function Listing(seen: set<string>, listed: seq<string>, token: string): seq<string> {
    if token in seen || token in listed then listed else listed + [token]
  }

  lemma ListingLists(S: set<string>, seen: set<string>, listed: seq<string>, token: string)
    requires Lists(listed, S - seen)
    ensures Lists(Listing(seen, listed, token), (S + {token}) - seen)
  {
    if token in seen || token in listed {
      assert token in seen || token in Elements(listed);
      assert (S + {token}) - seen == S - seen;
    } else {
      assert token !in Elements(listed);
      ListsMore(listed, S - seen, token);
      assert (S + {token}) - seen == (S - seen) + {token};
    }
  }

  lemma VisitSubject(T: set<Tuple>, seen: set<string>, listed: seq<string>, next: seq<Pair>, t: Tuple)
    requires Visited(T, seen, listed, next) && t.kind != Pattern
    ensures Visited(T + {t}, seen, Listing(seen, listed, MemberToken(t.kind, t.subjId, t.subjRel)),
                    if t.kind == Subgroup then next + [SubjectPair(t)] else next)
  {
    OneMoreSubject(T, t);
    ListingLists(SubjectTokens(T), seen, listed, MemberToken(t.kind, t.subjId, t.subjRel));
    ElementsConcat(next, [SubjectPair(t)]);
  }

  /** One more tuple of the list looked at. */
  lemma EntriesMore(ts: seq<Tuple>, i: nat, now: Instant, step: Pair)
    requires i < |ts|
    ensures Entries(LiveTuples(ts[..i + 1], now), step)
         == Entries(LiveTuples(ts[..i], now), step) + (if Live(ts[i], now) && IsEntry(step, ts[i]) then {ts[i]} else {})
  {
    assert ts[..i + 1] == ts[..i] + [ts[i]];
  }

  /** What a walk has visited, listed and found, and the steps queued. */
  ghost predicate Walking(L: set<Tuple>, start: Pair, visited: set<Pair>, found: set<Tuple>, seen: set<string>,
                          tokens: seq<string>, queue: seq<Pair>) {
    Walk(L, start, visited, found, Elements(queue)) && Lists(tokens, seen) && seen == SubjectTokens(found)
  }

  lemma QueueFront(queue: seq<Pair>)
    requires queue != []
    ensures queue[0] in Elements(queue) && Elements(queue) == Elements(queue[1..]) + {queue[0]}
  {
    ElementsConcat([queue[0]], queue[1..]);
    assert queue == [queue[0]] + queue[1..];
  }

  lemma WalkPast(L: set<Tuple>, start: Pair, visited: set<Pair>, found: set<Tuple>, seen: set<string>,
                 tokens: seq<string>, queue: seq<Pair>)
    requires Walking(L, start, visited, found, seen, tokens, queue) && queue != [] && queue[0] in visited
    ensures Walking(L, start, visited, found, seen, tokens, queue[1..])
  {
    QueueFront(queue);
    WalkSkips(L, start, visited, found, Elements(queue), queue[0], Elements(queue[1..]));
  }

  lemma WalkOn(L: set<Tuple>, start: Pair, visited: set<Pair>, found: set<Tuple>, seen: set<string>,
               tokens: seq<string>, queue: seq<Pair>, listed: seq<string>, next: seq<Pair>)
    requires WellFormedSet(L) && Walking(L, start, visited, found, seen, tokens, queue)
    requires queue != [] && queue[0] !in visited && Visited(Entries(L, queue[0]), seen, listed, next)
    ensures Walking(L, start, visited + {queue[0]}, found + Entries(L, queue[0]), seen + Elements(listed),
                    tokens + listed, queue[1..] + next)
    ensures Steps(L, start) - (visited + {queue[0]}) < Steps(L, start) - visited
  {
    var step := queue[0];
    QueueFront(queue);
    WalkAdvances(L, start, visited, found, Elements(queue), step, Elements(queue[1..]));
    WalkShrinks(L, start, visited, found, Elements(queue), step);
    SubjectTokensUnion(found, Entries(L, step));
    ListsConcat(tokens, seen, listed, Elements(listed));
    ElementsConcat(queue[1..], next);
  }

  lemma WalkEnds(L: set<Tuple>, start: Pair, visited: set<Pair>, found: set<Tuple>, seen: set<string>,
                 tokens: seq<string>)
    requires WellFormedSet(L) && Walking(L, start, visited, found, seen, tokens, [])
    ensures Lists(tokens, MemberTokens(L, start))
  {
    assert Elements<Pair>([]) == {};
    WalkDone(L, start, visited, found);
  }

  lemma WalkStarts(L: set<Tuple>, start: Pair)
    ensures Walking(L, start, {}, {}, {}, [], [start])
  {
    assert Elements([start]) == {start};
  }
}
