/** The open set of `a_star`: a Python list used as a binary heap through
    `heapq`. Only the contract of `heapq` is modelled: the list holds the
    pushed `(f, node)` pairs, and `heappop` removes and returns one whose key
    is minimal. */
module Frontier {
  import opened Costs
  import opened Nodes

  /** A pushed pair `(f, node)`; `key` is node.f at the time of the push. */
  datatype Entry = Entry(key: Cost, node: Node)

  /** `e` is in `open` and no entry of `open` has a smaller key. */
  predicate IsMin(open: seq<Entry>, e: Entry)
  {
    e in open && forall x :: x in open ==> Le(e.key, x.key)
  }

  lemma {:induction false} MinExists(open: seq<Entry>)
    requires |open| > 0
    ensures exists i :: 0 <= i < |open| && IsMin(open, open[i])
  {
    if |open| == 1 {
      assert IsMin(open, open[0]);
    } else {
      var tail := open[1..];
      MinExists(tail);
      var i :| 0 <= i < |tail| && IsMin(tail, tail[i]);
      assert forall x :: x in open ==> x == open[0] || x in tail;
      if Le(open[0].key, tail[i].key) {
        forall x | x in open
          ensures Le(open[0].key, x.key)
        {
          if x != open[0] {
            LtTrichotomy(open[0].key, tail[i].key);
            LtTrichotomy(tail[i].key, x.key);
            if Lt(open[0].key, tail[i].key) && Lt(tail[i].key, x.key) {
              LtTransitive(open[0].key, tail[i].key, x.key);
            }
          }
        }
        assert IsMin(open, open[0]);
      } else {
        LtTrichotomy(open[0].key, tail[i].key);
        assert IsMin(open, open[i + 1]);
      }
    }
  }

  /** `heapq.heappop`: removes one entry of minimal key and returns it. Which
      of several entries with equal keys comes out is left open: the source's
      tuples break such ties by comparing the nodes' current f, which the
      heap does not keep in order. */
  method Pop(open: seq<Entry>) returns (e: Entry, rest: seq<Entry>)
    requires |open| > 0
    ensures IsMin(open, e)
    ensures multiset(rest) + multiset{e} == multiset(open)
    ensures |rest| == |open| - 1
  {
    MinExists(open);
    var i :| 0 <= i < |open| && IsMin(open, open[i]);
    e := open[i];
    rest := open[..i] + open[i + 1..];
    assert open == open[..i] + [open[i]] + open[i + 1..];
  }

  /** The nodes that have at least one entry in the open set. */
  ghost function OpenCells(open: seq<Entry>): set<Node>
  {
    set e | e in open :: e.node
  }

  lemma OpenCellsPush(open: seq<Entry>, e: Entry)
    ensures OpenCells(open + [e]) == OpenCells(open) + {e.node}
  {
    forall n | n in OpenCells(open + [e])
      ensures n in OpenCells(open) + {e.node}
    {
      var x :| x in open + [e] && x.node == n;
    }
    forall n | n in OpenCells(open) + {e.node}
      ensures n in OpenCells(open + [e])
    {
      if n != e.node {
        var x :| x in open && x.node == n;
        assert x in open + [e];
      } else {
        assert e in open + [e];
      }
    }
  }

  /** Popping an entry only takes away that entry's node, and only if it had
      no other entry. */
  lemma OpenCellsPop(open: seq<Entry>, e: Entry, rest: seq<Entry>)
    requires multiset(rest) + multiset{e} == multiset(open)
    ensures OpenCells(open) <= OpenCells(rest) + {e.node}
  {
    forall n | n in OpenCells(open)
      ensures n in OpenCells(rest) + {e.node}
    {
      var x :| x in open && x.node == n;
      if x != e {
        assert x in multiset(open);
        assert x in multiset(rest);
      }
    }
  }
}
