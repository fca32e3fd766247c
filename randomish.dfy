/**
  The non-repeating style rotation selector. A persisted, shuffled queue of style bases is
  consumed from the front, one base per call; every call adds one to three modifier
  phrases drawn with replacement; an exhausted (or missing, or unreadable) queue is rebuilt
  from a fresh shuffle of the whole catalogue. The queue file is the `file` field of a
  `Selector`; every draw of the cryptographic generator is a nondeterministic choice.
*/
module Randomish {
  import opened Wrappers
  import PyText

  /** What the queue file holds when it is opened: no file; a file whose reading fails with
      an OS error or whose text is not valid JSON (the two errors `_load_queue` and
      `peek_remaining` catch); a file whose bytes do not decode as text, so that reading it
      raises an error neither of them catches; or a parsed list of style bases. */
  datatype QueueFile = Absent | Unreadable | Undecodable | Stored(items: seq<string>)

  /** Why a selector operation raises: popping from an empty queue, choosing from no
      phrases, or a queue file that does not decode as text. */
  datatype StyleError = EmptyQueue | NoPhrases | UndecodableQueue

  /** `_load_queue` keeps what it read only when it parsed to a non-empty list. */
  predicate Usable(f: QueueFile) {
    f.Stored? && f.items != []
  }

  /** The queue `_load_queue` may return for file f: the stored list when usable, and
      otherwise some permutation of the catalogue. */
  predicate LoadedFrom(f: QueueFile, styleBases: seq<string>, queue: seq<string>) {
    if Usable(f) then queue == f.items else multiset(queue) == multiset(styleBases)
  }

  /** The count `peek_remaining` reports for file f. */
  function Remaining(f: QueueFile): nat {
    match f
    case Stored(items) => |items|
    case _ => 0
  }

  /** The returned style, `f"{base}, {phrases}"`: the base, then the phrases, all separated
      by ", ". It always opens with the base and the separator. */
  function FormatStyle(base: string, phrases: seq<string>): (r: string)
    ensures PyText.StartsWith(r, base + ", ")
  {
    var r := base + ", " + PyText.Join(phrases, ", ");
    assert r[..|base + ", "|] == base + ", ";
    r
  }

  predicate Distinct(s: seq<string>) {
    forall i, j :: 0 <= i < j < |s| ==> s[i] != s[j]
  }

  /** `list.index(x)`: the position of the first occurrence of x. */
  function IndexOf(s: seq<string>, x: string): (i: nat)
    requires x in s
    ensures i < |s| && s[i] == x && x !in s[..i]
  {
    if s[0] == x then 0
    else
      var j := IndexOf(s[1..], x);
      assert s[..j + 1] == [s[0]] + s[1..][..j];
      j + 1
  }

  /** `list.remove(x)`: drop the first occurrence of x and keep the rest in order. */
  function RemoveFirst(s: seq<string>, x: string): (r: seq<string>)
    requires x in s
    ensures exists i :: 0 <= i < |s| && s[i] == x && x !in s[..i] && r == s[..i] + s[i + 1..]
    ensures |r| == |s| - 1
    ensures multiset(r) == multiset(s) - multiset{x}
  {
    var i := IndexOf(s, x);
    assert s == s[..i] + [s[i]] + s[i + 1..];
    s[..i] + s[i + 1..]
  }

  /** `_shuffle`: draw an element of the working copy at random, remove it, append it,
      until the copy is empty. The caller's sequence is a value and is never changed. */
  method Shuffle(items: seq<string>) returns (shuffled: seq<string>)
    ensures |shuffled| == |items|
    ensures multiset(shuffled) == multiset(items)
  {
    var rest := items;
    shuffled := [];
    while rest != []
      invariant multiset(shuffled) + multiset(rest) == multiset(items)
      decreases |rest|
    {
      var i :| 0 <= i < |rest|;
      var choice := rest[i];
      rest := RemoveFirst(rest, choice);
      shuffled := shuffled + [choice];
    }
    assert |multiset(shuffled)| == |multiset(items)|;
  }

  class Selector {
    /** The queue file, as `_load_queue` and `peek_remaining` find it. */
    var file: QueueFile

    constructor (initial: QueueFile)
      ensures file == initial
    {
      file := initial;
    }

    /** `_load_queue`: the stored list when it parsed and is non-empty, else a fresh shuffle;
        a file that does not decode raises. */
    method LoadQueue(styleBases: seq<string>) returns (r: Result<seq<string>, StyleError>)
      ensures file == Undecodable ==> r == Err(UndecodableQueue)
      ensures file != Undecodable ==> r.Ok? && LoadedFrom(file, styleBases, r.value)
    {
      match file {
        case Undecodable =>
          r := Err(UndecodableQueue);
        case Stored(items) =>
          if items != [] {
            r := Ok(items);
          } else {
            var queue := Shuffle(styleBases);
            r := Ok(queue);
          }
        case _ =>
          var queue := Shuffle(styleBases);
          r := Ok(queue);
      }
    }

    /** `_save_queue`: overwrite the file with the queue. */
    method SaveQueue(queue: seq<string>)
      modifies this
      ensures file == Stored(queue)
    {
      file := Stored(queue);
    }

    /** `get_random_style`. `queue` is the deque after loading (and the defensive
        reshuffle); `phrases` are the modifier phrases drawn. The pop is saved before the
        phrases are drawn, so an empty phrase list fails with the base already consumed. */
    method GetRandomStyle(styleBases: seq<string>, stylePhrases: seq<string>)
      returns (r: Result<string, StyleError>, ghost queue: seq<string>, ghost phrases: seq<string>)
      modifies this
      ensures old(file) == Undecodable ==> r == Err(UndecodableQueue) && file == old(file)
      ensures old(file) != Undecodable ==> LoadedFrom(old(file), styleBases, queue)
      ensures old(file) != Undecodable ==> (queue == [] <==> !Usable(old(file)) && styleBases == [])
      ensures old(file) != Undecodable && queue == [] ==> r == Err(EmptyQueue) && file == old(file)
      ensures old(file) != Undecodable && queue != [] ==> file == Stored(queue[1..])
      ensures old(file) != Undecodable && queue != [] && stylePhrases == [] ==> r == Err(NoPhrases)
      ensures old(file) != Undecodable && queue != [] && stylePhrases != [] ==>
                r == Ok(FormatStyle(queue[0], phrases))
                && 1 <= |phrases| <= 3
                && forall p :: p in phrases ==> p in stylePhrases
    {
      queue, phrases := [], [];
      var loaded := LoadQueue(styleBases);
      if loaded.Err? {
        return Err(loaded.error), queue, phrases;
      }
      var q := loaded.value;
      if q == [] {
        q := Shuffle(styleBases);
      }
      queue, phrases := q, [];
      if q == [] {
        // deque.popleft on an empty deque raises before anything is saved
        return Err(EmptyQueue), queue, phrases;
      }
      var base := q[0];
      SaveQueue(q[1..]);
      if stylePhrases == [] {
        // secrets.choice on an empty list raises after the save
        return Err(NoPhrases), queue, phrases;
      }
      var count :| 1 <= count <= 3;
      var chosen: seq<string> := [];
      for k := 0 to count
        invariant |chosen| == k
        invariant forall p :: p in chosen ==> p in stylePhrases
      {
        var j :| 0 <= j < |stylePhrases|;
        chosen := chosen + [stylePhrases[j]];
      }
      phrases := chosen;
      r := Ok(FormatStyle(base, chosen));
    }

    /** `peek_remaining`: the stored list's length, or 0 for a missing or unreadable file;
        a file that does not decode raises. */
    method PeekRemaining() returns (r: Result<nat, StyleError>)
      ensures file == Undecodable ==> r == Err(UndecodableQueue)
      ensures file != Undecodable ==> r == Ok(Remaining(file))
    {
      match file {
        case Undecodable => r := Err(UndecodableQueue);
        case Stored(items) => r := Ok(|items|);
        case _ => r := Ok(0);
      }
    }

    /** `reset_queue`: delete the file if there is one. */
    method ResetQueue()
      modifies this
      ensures file == Absent
    {
      if file != Absent {
        file := Absent;
      }
    }
  }

  /** The formatted style is the base and the phrases joined by ", ". */
  lemma FormatStyleIsJoin(base: string, phrases: seq<string>)
    requires phrases != []
    ensures FormatStyle(base, phrases) == PyText.Join([base] + phrases, ", ")
  {
    assert ([base] + phrases)[1..] == phrases;
  }

  /** A repeated element is counted twice by the multiset. */
  lemma {:induction false} DistinctCounts(s: seq<string>)
    requires Distinct(s)
    ensures forall x :: multiset(s)[x] <= 1
  {
    if s != [] {
      DistinctCounts(s[1..]);
      assert s == [s[0]] + s[1..];
      assert s[0] !in s[1..];
    }
  }

  /** A permutation of a duplicate-free catalogue is duplicate-free and has the same
      elements. */
  lemma PermutationOfDistinct(a: seq<string>, b: seq<string>)
    requires multiset(a) == multiset(b)
    requires Distinct(a)
    ensures Distinct(b)
    ensures forall x :: x in b <==> x in a
  {
    DistinctCounts(a);
    forall i, j | 0 <= i < j < |b| ensures b[i] != b[j] {
      assert b == b[..j] + b[j..];
      assert b[..j][i] == b[i];
      assert b[j..][0] == b[j];
      assert multiset(b)[b[i]] == multiset(b[..j])[b[i]] + multiset(b[j..])[b[i]];
      assert multiset(b)[b[j]] == multiset(b[..j])[b[j]] + multiset(b[j..])[b[j]];
    }
    forall x ensures x in b <==> x in a {
      assert x in b <==> x in multiset(b);
      assert x in a <==> x in multiset(a);
    }
  }

  /** A queue rebuilt by reshuffling a non-empty catalogue has the catalogue's size, and
      the base popped from its front is a catalogue entry. */
  lemma ReshuffledFront(f: QueueFile, styleBases: seq<string>, queue: seq<string>)
    requires !Usable(f) && LoadedFrom(f, styleBases, queue)
    requires styleBases != []
    ensures |queue| == |styleBases| && queue[0] in styleBases
  {
    assert |multiset(queue)| == |multiset(styleBases)|;
    assert queue[0] in multiset(queue);
  }

  /** Exhaustion before repeat: from a state with no usable queue, as many calls as the
      catalogue has (duplicate-free) entries return every base exactly once, each formatted
      with one to three of the phrases; before each call after the first, `peek_remaining`
      reports the bases still queued, and afterwards the file holds an empty list, so the
      next call reshuffles the whole catalogue. */
  method RunFullCycle(sel: Selector, styleBases: seq<string>, stylePhrases: seq<string>)
    returns (results: seq<string>, ghost bases: seq<string>, ghost phrases: seq<seq<string>>,
             peeks: seq<nat>)
    requires !Usable(sel.file) && sel.file != Undecodable
    requires styleBases != [] && stylePhrases != [] && Distinct(styleBases)
    modifies sel
    ensures |results| == |bases| == |phrases| == |styleBases|
    ensures Distinct(bases)
    ensures forall x :: x in bases <==> x in styleBases
    ensures forall i :: 0 <= i < |results| ==>
              results[i] == FormatStyle(bases[i], phrases[i]) && 1 <= |phrases[i]| <= 3
    ensures forall i, p :: 0 <= i < |phrases| && p in phrases[i] ==> p in stylePhrases
    ensures |peeks| == |styleBases| - 1
    ensures forall i :: 0 <= i < |peeks| ==> peeks[i] == |styleBases| - 1 - i
    ensures sel.file == Stored([])
  {
    var r, q, ph := sel.GetRandomStyle(styleBases, stylePhrases);
    ghost var perm := q;
    ReshuffledFront(old(sel.file), styleBases, perm);
    results, bases, phrases, peeks := [r.value], [q[0]], [ph], [];
    var k := 1;
    while k < |styleBases|
      invariant 1 <= k <= |styleBases| == |perm|
      invariant bases == perm[..k]
      invariant |results| == |phrases| == k && |peeks| == k - 1
      invariant forall i :: 0 <= i < k ==>
                  results[i] == FormatStyle(bases[i], phrases[i]) && 1 <= |phrases[i]| <= 3
      invariant forall i, p :: 0 <= i < k && p in phrases[i] ==> p in stylePhrases
      invariant forall i :: 0 <= i < k - 1 ==> peeks[i] == |styleBases| - 1 - i
      invariant sel.file == Stored(perm[k..])
    {
      var left := sel.PeekRemaining();
      peeks := peeks + [left.value];
      r, q, ph := sel.GetRandomStyle(styleBases, stylePhrases);
      assert q == perm[k..];
      results, bases, phrases := results + [r.value], bases + [q[0]], phrases + [ph];
      assert perm[..k + 1] == perm[..k] + [perm[k]];
      k := k + 1;
    }
    assert bases == perm;
    PermutationOfDistinct(styleBases, perm);
  }

  /** Resetting twice is the same as resetting once, and leaves nothing to peek at. */
  method ResetTwiceThenPeek(sel: Selector) returns (n: Result<nat, StyleError>)
    modifies sel
    ensures sel.file == Absent && n == Ok(0)
  {
    sel.ResetQueue();
    sel.ResetQueue();
    n := sel.PeekRemaining();
  }
}
