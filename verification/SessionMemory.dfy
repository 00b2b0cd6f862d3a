/** Session memory: two bounded deques against an unbounded history. */
module SessionMemory {

  const MAX_CITATIONS := 50
  const MAX_DOC_IDS := 20

  function Last<T>(xs: seq<T>, n: nat): (r: seq<T>)
    ensures |r| == if |xs| <= n then |xs| else n
  {
    if |xs| <= n then xs else xs[|xs| - n..]
  }

  /** deque.append with a maximum length. */
  function Push<T>(xs: seq<T>, x: T, capacity: nat): (r: seq<T>)
    requires |xs| <= capacity
    ensures |r| <= capacity
  {
    if capacity == 0 then [] else if |xs| == capacity then xs[1..] + [x] else xs + [x]
  }

  /** deque.remove, or nothing where it raises. */
  function Remove<T(==)>(xs: seq<T>, x: T): (r: seq<T>)
    ensures |r| <= |xs|
  {
    if xs == [] then [] else if xs[0] == x then xs[1..] else [xs[0]] + Remove(xs[1..], x)
  }

  function AddDoc(ids: seq<string>, id: string, capacity: nat): seq<string>
    requires |ids| <= capacity
  {
    Push(Remove(ids, id), id, capacity)
  }

  // ----- the memory --------------------------------------------------------

  class SessionMemory<Citation> {
    var citations: seq<Citation>
    var docIds: seq<string>

    constructor ()
      ensures citations == [] && docIds == []
    {
      citations, docIds := [], [];
    }

    predicate Valid()
      reads this
    {
      |citations| <= MAX_CITATIONS && |docIds| <= MAX_DOC_IDS
    }

    method AddCitation(c: Citation)
      requires Valid()
      modifies this
      ensures Valid()
      ensures citations == Push(old(citations), c, MAX_CITATIONS) && docIds == old(docIds)
    {
      if |citations| == MAX_CITATIONS { citations := citations[1..]; }
      citations := citations + [c];
    }

    method AddDocId(id: string)
      requires Valid()
      modifies this
      ensures Valid()
      ensures docIds == AddDoc(old(docIds), id, MAX_DOC_IDS) && citations == old(citations)
    {
      docIds := Remove(docIds, id);
      if |docIds| == MAX_DOC_IDS { docIds := docIds[1..]; }
      docIds := docIds + [id];
    }

    method Clear()
      modifies this
      ensures Valid() && citations == [] && docIds == []
    {
      citations, docIds := [], [];
    }
  }

  // ----- the history -------------------------------------------------------

  datatype Op<Citation> = Cite(citation: Citation) | Visit(id: string) | Clear

  datatype Memory<Citation> = Memory(citations: seq<Citation>, docIds: seq<string>)

  function Step<C>(m: Memory<C>, op: Op<C>): (r: Memory<C>)
    requires |m.citations| <= MAX_CITATIONS && |m.docIds| <= MAX_DOC_IDS
    ensures |r.citations| <= MAX_CITATIONS && |r.docIds| <= MAX_DOC_IDS
  {
    match op
    case Cite(c) => m.(citations := Push(m.citations, c, MAX_CITATIONS))
    case Visit(id) => m.(docIds := AddDoc(m.docIds, id, MAX_DOC_IDS))
    case Clear => Memory([], [])
  }

  function Run<C>(ops: seq<Op<C>>): (m: Memory<C>)
    ensures |m.citations| <= MAX_CITATIONS && |m.docIds| <= MAX_DOC_IDS
  {
    if ops == [] then Memory([], []) else Step(Run(ops[..|ops| - 1]), ops[|ops| - 1])
  }

  /** All that was done since the last clearing. */
  function Since<C>(ops: seq<Op<C>>): seq<Op<C>> {
    if ops == [] || ops[|ops| - 1].Clear? then []
    else Since(ops[..|ops| - 1]) + [ops[|ops| - 1]]
  }

  function Cited<C>(ops: seq<Op<C>>): seq<C> {
    if ops == [] then []
    else Cited(ops[..|ops| - 1]) + if ops[|ops| - 1].Cite? then [ops[|ops| - 1].citation] else []
  }

  function Visited<C>(ops: seq<Op<C>>): seq<string> {
    if ops == [] then []
    else Visited(ops[..|ops| - 1]) + if ops[|ops| - 1].Visit? then [ops[|ops| - 1].id] else []
  }

  /** A history with each id kept only where it occurs last. */
  function Latest(history: seq<string>): (r: seq<string>)
    ensures forall x :: x in r <==> x in history
  {
    if history == [] then []
    else if history[0] in history[1..] then Latest(history[1..])
    else [history[0]] + Latest(history[1..])
  }

  predicate Distinct(xs: seq<string>) { forall i, j | 0 <= i < j < |xs| :: xs[i] != xs[j] }

  lemma {:induction false} LatestIsDistinct(history: seq<string>)
    ensures Distinct(Latest(history))
  {
    if history != [] {
      LatestIsDistinct(history[1..]);
    }
  }

  lemma {:induction false} RemoveAbsent(xs: seq<string>, x: string)
    requires x !in xs
    ensures Remove(xs, x) == xs
  {
    if xs != [] {
      RemoveAbsent(xs[1..], x);
    }
  }

  /** Visiting an id moves it to the end of the reduced history. */
  lemma {:induction false} LatestMovesToEnd(history: seq<string>, x: string)
    ensures Latest(history + [x]) == Remove(Latest(history), x) + [x]
  {
    if history == [] {
      assert [] + [x] == [x] && [x][1..] == [];
    } else {
      var front, rest := history[0], history[1..];
      assert (history + [x])[1..] == rest + [x] && (history + [x])[0] == front;
      LatestMovesToEnd(rest, x);
      LatestIsDistinct(history);
      if front == x {
        if front !in rest {
          RemoveAbsent(Latest(rest), x);
        }
      } else if front !in rest {
        assert Latest(history) == [front] + Latest(rest);
        assert [front] + (Remove(Latest(rest), x) + [x]) == ([front] + Remove(Latest(rest), x)) + [x];
      }
    }
  }

  lemma {:induction false} RemoveAt(front: seq<string>, x: string, back: seq<string>)
    requires x !in front
    ensures Remove(front + [x] + back, x) == front + back
  {
    if front == [] {
      assert [] + [x] + back == [x] + back && [] + back == back;
    } else {
      assert (front + [x] + back)[1..] == front[1..] + [x] + back;
      RemoveAt(front[1..], x, back);
      assert [front[0]] + (front[1..] + back) == front + back;
    }
  }

  /** The id is among the last `n`: it moves, nothing is evicted. */
  lemma MovesWithin(front: seq<string>, x: string, back: seq<string>, n: nat)
    requires x !in front && |back| < n
    ensures AddDoc(Last(front + [x] + back, n), x, n) == Last(front + back + [x], n)
  {
    var all := front + [x] + back;
    var cut := |all| - |Last(all, n)|;
    assert Last(all, n) == front[cut..] + [x] + back;
    RemoveAt(front[cut..], x, back);
    hide Remove;
    assert front[cut..] + back + [x] == (front + back + [x])[cut..];
  }

  /** The id is further back: the oldest of the last `n` goes. */
  lemma MovesInFrom(front: seq<string>, x: string, back: seq<string>, n: nat)
    requires x !in back && |back| >= n
    ensures AddDoc(Last(front + [x] + back, n), x, n) == Last(front + back + [x], n)
  {
    hide Remove, Last;
    var kept := back[|back| - n..];
    LastOfBack(front + [x], back, n);
    RemoveAbsent(kept, x);
    if n > 0 {
      LastOfBack(front, back, n - 1);
      LastGrows(front + back, x, n);
      assert kept[1..] == back[|back| - (n - 1)..];
    } else {
      LastOfNone(front + back + [x]);
    }
  }

  lemma LastOfBack(front: seq<string>, back: seq<string>, n: nat)
    requires |back| >= n
    ensures Last(front + back, n) == back[|back| - n..]
  {
  }

  lemma LastGrows(all: seq<string>, x: string, n: nat)
    requires 0 < n
    ensures Last(all + [x], n) == Last(all, n - 1) + [x]
  {
  }

  lemma LastOfNone(all: seq<string>)
    ensures Last(all, 0) == []
  {
  }

  /** Dropping the oldest early makes no difference to the last `n`. */
  lemma EvictionAgrees(all: seq<string>, x: string, n: nat)
    requires Distinct(all)
    ensures AddDoc(Last(all, n), x, n) == Last(Remove(all, x) + [x], n)
  {
    hide AddDoc, Last, Remove;
    if x in all {
      var i :| 0 <= i < |all| && all[i] == x;
      var front, back := all[..i], all[i + 1..];
      assert all == front + [x] + back;
      RemoveAt(front, x, back);
      if |back| < n {
        MovesWithin(front, x, back, n);
      } else {
        MovesInFrom(front, x, back, n);
      }
    } else {
      RemoveAbsent(all, x);
      JoinsAtEnd(all, x, n);
    }
  }

  lemma JoinsAtEnd(all: seq<string>, x: string, n: nat)
    requires x !in all
    ensures AddDoc(Last(all, n), x, n) == Last(all + [x], n)
  {
    RemoveAbsent(Last(all, n), x);
  }

  lemma PushIsLast<T>(all: seq<T>, x: T, n: nat)
    ensures Push(Last(all, n), x, n) == Last(all + [x], n)
  {
  }

  /** After any operations, the memory holds the last 50 citations added and the
      last 20 ids of the history reduced to last occurrences, both counted from
      the last clearing. */
  lemma {:induction false} MemoryIsRecent<C>(ops: seq<Op<C>>)
    ensures Run(ops).citations == Last(Cited(Since(ops)), 50)
    ensures Run(ops).docIds == Last(Latest(Visited(Since(ops))), 20)
  {
    if ops != [] && !ops[|ops| - 1].Clear? {
      var front, op := ops[..|ops| - 1], ops[|ops| - 1];
      MemoryIsRecent(front);
      var since := Since(front);
      assert Since(ops) == since + [op];
      assert (since + [op])[..|since|] == since;
      assert Cited(since) + [] == Cited(since) && Visited(since) + [] == Visited(since);
      hide Last, Latest, Push, AddDoc, Remove;
      match op {
        case Cite(c) => PushIsLast(Cited(since), c, MAX_CITATIONS);
        case Visit(id) =>
          LatestIsDistinct(Visited(since));
          LatestMovesToEnd(Visited(since), id);
          EvictionAgrees(Latest(Visited(since)), id, MAX_DOC_IDS);
      }
    }
  }
}
