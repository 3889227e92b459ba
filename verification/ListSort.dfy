/** src/list_sort.c: the bottom-up merge sort that relinks snext in place.  The nested loops of the
    source are one method each; the ghost sequences say which rows stand where. */
module ListSort {
  import opened SortOrder
  import opened Rows

  type Compare<!K, !V> = (Item<K, V>, Item<K, V>) -> bool

  /** The rows merged so far: list is the first of them and tail the last; tail.snext is stale. */
  ghost predicate Built<K, V>(list: Row?<K, V>, tail: Row?<K, V>, out: seq<Row<K, V>>)
    reads out`snext
  {
    && Linked(out)
    && (if out == [] then list == null && tail == null else list == out[0] && tail == out[|out| - 1])
  }

  lemma Assoc<T>(s: seq<T>, t: seq<T>, u: seq<T>)
    ensures s + t + u == s + (t + u)
  {}

  /** The last element of out stands nowhere else. */
  lemma LastApart<T>(out: seq<T>, rest: seq<T>)
    requires NoDup(out + rest) && out != []
    ensures out[|out| - 1] !in rest && forall i :: 0 <= i < |out| - 1 ==> out[i] != out[|out| - 1]
  {
    var w, n := out + rest, |out| - 1;
    forall i | 0 <= i < n ensures out[i] != out[n] {
      Distinct(w, i, n);
    }
    forall j | 0 <= j < |rest| ensures rest[j] != out[n] {
      Distinct(w, n, |out| + j);
    }
  }

  lemma MoveForward<T>(s: seq<T>, t: seq<T>, x: T, u: seq<T>)
    requires NoDup(s + t + ([x] + u))
    ensures NoDup(s + [x] + t + u)
  {
    assert multiset(s + t + ([x] + u)) == multiset(s + [x] + t + u);
    NoDupPermuted(s + t + ([x] + u), s + [x] + t + u);
  }

  /** Walks up to insize rows from p; q is where the second run starts. */
  method StepRun<K, V>(p: Row<K, V>, insize: nat, ghost w: seq<Row<K, V>>) returns (q: Row?<K, V>, psize: nat)
    requires 0 < insize && w != [] && SList(p, w)
    ensures psize == Min(insize, |w|) && SList(q, w[psize..])
  {
    q, psize := p, 0;
    var i := 0;
    while i < insize
      invariant 0 <= i == psize <= insize && psize < |w|
      invariant q == w[psize]
    {
      psize := psize + 1;
      q := q.snext;
      if q == null {
        break;
      }
      i := i + 1;
    }
    assert q == if psize < |w| then w[psize] else null;
    assert psize < |w| ==> w[psize..][|w| - psize - 1] == w[|w| - 1];
  }

  /** The variables of the inner merge loop. */
  datatype Cursor<K, V> = Cursor(list: Row?<K, V>, tail: Row?<K, V>, p: Row?<K, V>, psize: nat, q: Row?<K, V>, qsize: nat)

  /** The inner loop stands between out (merged), a (the rest of the p run), b (the rest of the q run) and
      rest (what follows the q run); no row is in two of them. */
  ghost predicate Merging<K, V>(c: Cursor<K, V>, out: seq<Row<K, V>>, a: seq<Row<K, V>>, b: seq<Row<K, V>>,
                                rest: seq<Row<K, V>>, f: Contents<K, V>)
    reads out`snext, a`snext, b`snext, rest`snext, f.Keys`val
  {
    && Built(c.list, c.tail, out)
    && c.psize == |a| && Linked(a) && (a != [] ==> c.p == a[0])
    && SList(c.q, b + rest) && |b| == Min(c.qsize, |b + rest|)
    && NoDup(out + a + (b + rest)) && Known(out, f) && Frozen(f)
  }

  /** Appends e to the merged list. */
  method Append<K, V>(list: Row?<K, V>, tail: Row?<K, V>, e: Row<K, V>, ghost out: seq<Row<K, V>>) returns (list': Row?<K, V>)
    requires Built(list, tail, out) && forall i :: 0 <= i < |out| - 1 ==> out[i] != tail
    modifies if tail == null then {} else {tail}`snext
    ensures Built(list', e, out + [e])
  {
    if tail != null {
      tail.snext := e;
      list' := list;
    } else {
      list' := e;
    }
  }

  lemma TailApart<K, V>(c: Cursor<K, V>, out: seq<Row<K, V>>, a: seq<Row<K, V>>, b: seq<Row<K, V>>, rest: seq<Row<K, V>>,
                        f: Contents<K, V>)
    requires Merging(c, out, a, b, rest, f)
    ensures c.tail != null ==> c.tail in out && c.tail in f && c.tail !in a && c.tail !in b + rest
    ensures forall i :: 0 <= i < |out| - 1 ==> out[i] != c.tail
  {
    if out != [] {
      Assoc(out, a, b + rest);
      LastApart(out, a + (b + rest));
      assert forall x :: x in a ==> x in a + (b + rest);
      assert forall x :: x in b + rest ==> x in a + (b + rest);
    }
  }

  lemma SListTail<K, V>(p: Row<K, V>, w: seq<Row<K, V>>)
    requires SList(p, w)
    ensures SList(p.snext, w[1..])
  {}

  lemma ConsConcat<T>(b: seq<T>, rest: seq<T>)
    requires b != []
    ensures (b + rest)[1..] == b[1..] + rest && b + rest == [b[0]] + (b[1..] + rest)
  {}

  method TakeP<K, V>(c: Cursor<K, V>, ghost out: seq<Row<K, V>>, ghost a: seq<Row<K, V>>, ghost b: seq<Row<K, V>>,
                     ghost rest: seq<Row<K, V>>, ghost f: Contents<K, V>)
    returns (c': Cursor<K, V>)
    requires Merging(c, out, a, b, rest, f) && a != [] && a[0] in f
    modifies f.Keys`snext
    ensures Merging(c', out + [a[0]], a[1..], b, rest, f)
  {
    TailApart(c, out, a, b, rest, f);
    assert out + [a[0]] + a[1..] == out + a;
    var p := c.p.snext;
    var list := Append(c.list, c.tail, c.p, out);
    c' := Cursor(list, c.p, p, c.psize - 1, c.q, c.qsize);
  }

  method TakeQ<K, V>(c: Cursor<K, V>, ghost out: seq<Row<K, V>>, ghost a: seq<Row<K, V>>, ghost b: seq<Row<K, V>>,
                     ghost rest: seq<Row<K, V>>, ghost f: Contents<K, V>)
    returns (c': Cursor<K, V>)
    requires Merging(c, out, a, b, rest, f) && b != [] && b[0] in f
    modifies f.Keys`snext
    ensures Merging(c', out + [b[0]], a, b[1..], rest, f)
  {
    TailApart(c, out, a, b, rest, f);
    SListTail(c.q, b + rest);
    ConsConcat(b, rest);
    MoveForward(out, a, b[0], b[1..] + rest);
    var q := c.q.snext;
    var list := Append(c.list, c.tail, c.q, out);
    c' := Cursor(list, c.q, c.p, c.psize, q, c.qsize - 1);
  }

  /** merged is what the merge has produced, a and b what it still has to merge, goal its result. */
  ghost predicate Produced<K, V>(merged: seq<Row<K, V>>, a: seq<Row<K, V>>, b: seq<Row<K, V>>, f: Contents<K, V>,
                                 cb: Compare<K, V>, goal: Snapshot<K, V>)
  {
    && Known(merged, f) && Known(a, f) && Known(b, f)
    && Tag(merged, f) + Merge(Tag(a, f), Tag(b, f), cb) == goal
  }

  /** The next row of the merge is the first of a, or else of b. */
  ghost predicate Chooses<K, V>(fromP: bool, a: seq<Row<K, V>>, b: seq<Row<K, V>>, f: Contents<K, V>, cb: Compare<K, V>) {
    if fromP then a != [] && a[0] in f && (b == [] || (b[0] in f && cb(f[a[0]], f[b[0]])))
    else b != [] && b[0] in f && (a == [] || (a[0] in f && !cb(f[a[0]], f[b[0]])))
  }

  lemma ProducedP<K, V>(merged: seq<Row<K, V>>, a: seq<Row<K, V>>, b: seq<Row<K, V>>, f: Contents<K, V>,
                        cb: Compare<K, V>, goal: Snapshot<K, V>)
    requires Produced(merged, a, b, f, cb, goal) && Chooses(true, a, b, f, cb)
    ensures Produced(merged + [a[0]], a[1..], b, f, cb, goal)
  {
    TagUncons(a, f);
    KnownConcat(merged, [a[0]], f);
    TagConcat(merged, [a[0]], f);
    Assoc(Tag(merged, f), [Tag(a, f)[0]], Merge(Tag(a, f)[1..], Tag(b, f), cb));
  }

  lemma ProducedQ<K, V>(merged: seq<Row<K, V>>, a: seq<Row<K, V>>, b: seq<Row<K, V>>, f: Contents<K, V>,
                        cb: Compare<K, V>, goal: Snapshot<K, V>)
    requires Produced(merged, a, b, f, cb, goal) && Chooses(false, a, b, f, cb)
    ensures Produced(merged + [b[0]], a, b[1..], f, cb, goal)
  {
    TagUncons(b, f);
    KnownConcat(merged, [b[0]], f);
    TagConcat(merged, [b[0]], f);
    Assoc(Tag(merged, f), [Tag(b, f)[0]], Merge(Tag(a, f), Tag(b, f)[1..], cb));
  }

  /** The invariant of the inner loop: merged has been appended to out, a and b remain. */
  ghost predicate Turn<K, V>(c: Cursor<K, V>, out: seq<Row<K, V>>, merged: seq<Row<K, V>>, a: seq<Row<K, V>>,
                             b: seq<Row<K, V>>, rest: seq<Row<K, V>>, f: Contents<K, V>,
                             cb: Compare<K, V>, goal: Snapshot<K, V>)
    reads f.Keys`val, out`snext, merged`snext, a`snext, b`snext, rest`snext
  {
    Merging(c, out + merged, a, b, rest, f) && Produced(merged, a, b, f, cb, goal)
  }

  /** Does the next row of the merge come from the p run?  The four cases of the source, in its order. */
  method FromP<K, V>(c: Cursor<K, V>, cb: Compare<K, V>, ghost out: seq<Row<K, V>>, ghost merged: seq<Row<K, V>>,
                     ghost a: seq<Row<K, V>>, ghost b: seq<Row<K, V>>, ghost rest: seq<Row<K, V>>,
                     ghost f: Contents<K, V>, ghost goal: Snapshot<K, V>)
    returns (fromP: bool)
    requires Turn(c, out, merged, a, b, rest, f, cb, goal)
    requires c.psize > 0 || (c.qsize > 0 && c.q != null)
    ensures Chooses(fromP, a, b, f, cb)
  {
    if c.psize == 0 {
      fromP := false;
    } else if c.qsize == 0 || c.q == null {
      fromP := true;
    } else {
      fromP := cb(Item(c.p.key, c.p.val), Item(c.q.key, c.q.val));
    }
  }

  method StepP<K, V>(c: Cursor<K, V>, cb: Compare<K, V>, ghost out: seq<Row<K, V>>, ghost merged: seq<Row<K, V>>,
                     ghost a: seq<Row<K, V>>, ghost b: seq<Row<K, V>>, ghost rest: seq<Row<K, V>>,
                     ghost f: Contents<K, V>, ghost goal: Snapshot<K, V>)
    returns (c': Cursor<K, V>, ghost merged': seq<Row<K, V>>, ghost a': seq<Row<K, V>>, ghost b': seq<Row<K, V>>)
    requires Turn(c, out, merged, a, b, rest, f, cb, goal) && Chooses(true, a, b, f, cb)
    modifies f.Keys`snext
    ensures Turn(c', out, merged', a', b', rest, f, cb, goal) && |a'| + |b'| < |a| + |b|
  {
    ProducedP(merged, a, b, f, cb, goal);
    Assoc(out, merged, [a[0]]);
    merged', a', b' := merged + [a[0]], a[1..], b;
    c' := TakeP(c, out + merged, a, b, rest, f);
  }

  method StepQ<K, V>(c: Cursor<K, V>, cb: Compare<K, V>, ghost out: seq<Row<K, V>>, ghost merged: seq<Row<K, V>>,
                     ghost a: seq<Row<K, V>>, ghost b: seq<Row<K, V>>, ghost rest: seq<Row<K, V>>,
                     ghost f: Contents<K, V>, ghost goal: Snapshot<K, V>)
    returns (c': Cursor<K, V>, ghost merged': seq<Row<K, V>>, ghost a': seq<Row<K, V>>, ghost b': seq<Row<K, V>>)
    requires Turn(c, out, merged, a, b, rest, f, cb, goal) && Chooses(false, a, b, f, cb)
    modifies f.Keys`snext
    ensures Turn(c', out, merged', a', b', rest, f, cb, goal) && |a'| + |b'| < |a| + |b|
  {
    ProducedQ(merged, a, b, f, cb, goal);
    Assoc(out, merged, [b[0]]);
    merged', a', b' := merged + [b[0]], a, b[1..];
    c' := TakeQ(c, out + merged, a, b, rest, f);
  }

  /** One turn of the inner loop: a row leaves the head of a or of b and joins the merged list. */
  method Step<K, V>(c: Cursor<K, V>, cb: Compare<K, V>, ghost out: seq<Row<K, V>>, ghost merged: seq<Row<K, V>>,
                    ghost a: seq<Row<K, V>>, ghost b: seq<Row<K, V>>, ghost rest: seq<Row<K, V>>,
                    ghost f: Contents<K, V>, ghost goal: Snapshot<K, V>)
    returns (c': Cursor<K, V>, ghost merged': seq<Row<K, V>>, ghost a': seq<Row<K, V>>, ghost b': seq<Row<K, V>>)
    requires Turn(c, out, merged, a, b, rest, f, cb, goal)
    requires c.psize > 0 || (c.qsize > 0 && c.q != null)
    modifies f.Keys`snext
    ensures Turn(c', out, merged', a', b', rest, f, cb, goal) && |a'| + |b'| < |a| + |b|
  {
    var fromP := FromP(c, cb, out, merged, a, b, rest, f, goal);
    if fromP {
      c', merged', a', b' := StepP(c, cb, out, merged, a, b, rest, f, goal);
    } else {
      c', merged', a', b' := StepQ(c, cb, out, merged, a, b, rest, f, goal);
    }
  }

  lemma Started<K, V>(c: Cursor<K, V>, out: seq<Row<K, V>>, a: seq<Row<K, V>>, b: seq<Row<K, V>>, rest: seq<Row<K, V>>,
                      f: Contents<K, V>, cb: Compare<K, V>)
    requires Merging(c, out, a, b, rest, f) && Known(a, f) && Known(b, f)
    ensures Turn(c, out, [], a, b, rest, f, cb, Merge(Tag(a, f), Tag(b, f), cb))
  {
    assert out + [] == out;
  }

  lemma Finished<K, V>(c: Cursor<K, V>, out: seq<Row<K, V>>, merged: seq<Row<K, V>>, a: seq<Row<K, V>>,
                       b: seq<Row<K, V>>, rest: seq<Row<K, V>>, f: Contents<K, V>,
                       cb: Compare<K, V>, goal: Snapshot<K, V>)
    requires Turn(c, out, merged, a, b, rest, f, cb, goal)
    requires !(c.psize > 0 || (c.qsize > 0 && c.q != null))
    ensures a == [] && b == [] && Merging(c, out + merged, [], [], rest, f)
    ensures Known(merged, f) && Tag(merged, f) == goal
  {}

  /** Merges the run a of psize rows at p with the run b of at most insize rows at q onto the list
      built so far; rest is what follows b. */
  method MergeRuns<K, V>(c0: Cursor<K, V>, cb: Compare<K, V>, ghost out: seq<Row<K, V>>, ghost a0: seq<Row<K, V>>,
                         ghost b0: seq<Row<K, V>>, ghost rest: seq<Row<K, V>>, ghost f: Contents<K, V>)
    returns (c: Cursor<K, V>, ghost merged: seq<Row<K, V>>)
    requires Merging(c0, out, a0, b0, rest, f) && Known(a0, f) && Known(b0, f)
    modifies f.Keys`snext
    ensures Merging(c, out + merged, [], [], rest, f)
    ensures Known(merged, f) && Tag(merged, f) == Merge(Tag(a0, f), Tag(b0, f), cb)
  {
    c := c0;
    ghost var a, b := a0, b0;
    ghost var goal := Merge(Tag(a0, f), Tag(b0, f), cb);
    merged := [];
    Started(c, out, a, b, rest, f, cb);
    while c.psize > 0 || (c.qsize > 0 && c.q != null)
      invariant Turn(c, out, merged, a, b, rest, f, cb, goal)
      decreases |a| + |b|
    {
      c, merged, a, b := Step(c, cb, out, merged, a, b, rest, f, goal);
    }
    Finished(c, out, merged, a, b, rest, f, cb, goal);
  }

  /** Between two merges of a pass: out is merged, todo is still in the order it came in. */
  ghost predicate Passing<K, V>(list: Row?<K, V>, tail: Row?<K, V>, p: Row?<K, V>, out: seq<Row<K, V>>, todo: seq<Row<K, V>>,
                                f: Contents<K, V>, k: nat, cb: Compare<K, V>, goal: Snapshot<K, V>)
    requires 0 < k
    reads f.Keys`val, out`snext, todo`snext
  {
    && Built(list, tail, out) && SList(p, todo) && NoDup(out + todo) && Frozen(f)
    && Known(out, f) && Known(todo, f)
    && Tag(out, f) + Pass(Tag(todo, f), k, cb) == goal
  }

  lemma CutRuns<K, V>(todo: seq<Row<K, V>>, n: nat, l: nat, f: Contents<K, V>)
    requires n <= l <= |todo| && Known(todo, f)
    ensures Known(todo[..n], f) && Known(todo[n..l], f) && Known(todo[l..], f)
    ensures Tag(todo[..n], f) == Tag(todo, f)[..n] && Tag(todo[n..l], f) == Tag(todo, f)[n..l]
    ensures Tag(todo[l..], f) == Tag(todo, f)[l..]
  {}

  lemma ThreeParts<T>(s: seq<T>, n: nat, l: nat)
    requires n <= l <= |s|
    ensures s[n..] == s[n..l] + s[l..] && s == s[..n] + (s[n..l] + s[l..])
  {}

  lemma LinkedPart<K, V>(a: seq<Row<K, V>>, u: seq<Row<K, V>>)
    requires Linked(a + u)
    ensures Linked(a)
  {
    forall i | 0 <= i < |a| - 1 ensures a[i].snext == a[i + 1] {
      assert (a + u)[i].snext == (a + u)[i + 1];
    }
  }

  lemma EnterMerge<K, V>(list: Row?<K, V>, tail: Row?<K, V>, p: Row?<K, V>, q: Row?<K, V>, out: seq<Row<K, V>>,
                         a: seq<Row<K, V>>, b: seq<Row<K, V>>, rest: seq<Row<K, V>>, f: Contents<K, V>, k: nat)
    requires Built(list, tail, out) && a != [] && SList(p, a + (b + rest)) && SList(q, b + rest) && |b| == Min(k, |b + rest|)
    requires NoDup(out + (a + (b + rest))) && Known(out, f) && Frozen(f)
    ensures Merging(Cursor(list, tail, p, |a|, q, k), out, a, b, rest, f)
  {
    Assoc(out, a, b + rest);
    LinkedPart(a, b + rest);
  }

  lemma EnterRuns<K, V>(list: Row?<K, V>, tail: Row?<K, V>, p: Row<K, V>, psize: nat, q: Row?<K, V>, out: seq<Row<K, V>>,
                        todo: seq<Row<K, V>>, f: Contents<K, V>, k: nat)
    requires 0 < k && Built(list, tail, out) && SList(p, todo) && NoDup(out + todo) && Known(out, f) && Frozen(f)
    requires psize == Min(k, |todo|) && SList(q, todo[psize..])
    ensures var l := Min(2 * k, |todo|);
            Merging(Cursor(list, tail, p, psize, q, k), out, todo[..psize], todo[psize..l], todo[l..], f)
  {
    var l := Min(2 * k, |todo|);
    ThreeParts(todo, psize, l);
    EnterMerge(list, tail, p, q, out, todo[..psize], todo[psize..l], todo[l..], f, k);
  }

  /** The first two runs of what is left of a pass are about to be merged. */
  lemma EnterPair<K, V>(list: Row?<K, V>, tail: Row?<K, V>, p: Row<K, V>, psize: nat, q: Row?<K, V>, out: seq<Row<K, V>>,
                        todo: seq<Row<K, V>>, f: Contents<K, V>, k: nat, cb: Compare<K, V>, goal: Snapshot<K, V>)
    requires 0 < k && Passing(list, tail, p, out, todo, f, k, cb, goal)
    requires psize == Min(k, |todo|) && SList(q, todo[psize..])
    ensures var l := Min(2 * k, |todo|);
            todo != [] && Merging(Cursor(list, tail, p, psize, q, k), out, todo[..psize], todo[psize..l], todo[l..], f)
  {
    EnterRuns(list, tail, p, psize, q, out, todo, f, k);
  }

  lemma LeaveMerge<K, V>(c: Cursor<K, V>, out: seq<Row<K, V>>, todo: seq<Row<K, V>>, merged: seq<Row<K, V>>, psize: nat,
                         f: Contents<K, V>, k: nat, cb: Compare<K, V>, goal: Snapshot<K, V>)
    requires 0 < k && todo != [] && psize == Min(k, |todo|)
    requires Known(out, f) && Known(todo, f) && Known(merged, f)
    requires Merging(c, out + merged, [], [], todo[Min(2 * k, |todo|)..], f)
    requires Tag(out, f) + Pass(Tag(todo, f), k, cb) == goal
    requires Tag(merged, f) == Merge(Tag(todo, f)[..psize], Tag(todo, f)[psize..Min(2 * k, |todo|)], cb)
    ensures Passing(c.list, c.tail, c.q, out + merged, todo[Min(2 * k, |todo|)..], f, k, cb, goal)
  {
    var l := Min(2 * k, |todo|);
    assert [] + todo[l..] == todo[l..] && out + merged + [] == out + merged;
    CutRuns(todo, psize, l, f);
    TagConcat(out, merged, f);
    Assoc(Tag(out, f), Tag(merged, f), Pass(Tag(todo[l..], f), k, cb));
  }

  /** Merges the first two runs of what is left of a pass. */
  method MergePair<K, V>(list: Row?<K, V>, tail: Row?<K, V>, p: Row<K, V>, insize: nat, cb: Compare<K, V>,
                         ghost out: seq<Row<K, V>>, ghost todo: seq<Row<K, V>>,
                         ghost f: Contents<K, V>, ghost goal: Snapshot<K, V>)
    returns (list': Row?<K, V>, tail': Row?<K, V>, p': Row?<K, V>, ghost out': seq<Row<K, V>>, ghost todo': seq<Row<K, V>>)
    requires 0 < insize && Passing(list, tail, p, out, todo, f, insize, cb, goal)
    modifies f.Keys`snext
    ensures todo != [] && |todo'| == |todo| - Min(2 * insize, |todo|)
    ensures Passing(list', tail', p', out', todo', f, insize, cb, goal)
  {
    var q, psize := StepRun(p, insize, todo);
    ghost var l := Min(2 * insize, |todo|);
    EnterPair(list, tail, p, psize, q, out, todo, f, insize, cb, goal);
    CutRuns(todo, psize, l, f);
    var c, merged := MergeRuns(Cursor(list, tail, p, psize, q, insize), cb, out, todo[..psize], todo[psize..l], todo[l..], f);
    list', tail', p' := c.list, c.tail, c.q;
    out', todo' := out + merged, todo[l..];
    LeaveMerge(c, out, todo, merged, psize, f, insize, cb, goal);
  }

  lemma BuiltToList<K, V>(list: Row?<K, V>, tail: Row<K, V>, out: seq<Row<K, V>>)
    requires Built(list, tail, out) && tail.snext == null
    ensures SList(list, out)
  {}

  /** Terminates the merged list at the end of a pass. */
  method CloseList<K, V>(list: Row?<K, V>, tail: Row<K, V>, ghost out: seq<Row<K, V>>, ghost f: Contents<K, V>)
    requires Built(list, tail, out) && NoDup(out) && Known(out, f) && Frozen(f)
    modifies f.Keys`snext
    ensures SList(list, out) && Frozen(f)
  {
    assert out + [] == out;
    LastApart(out, []);
    tail.snext := null;
    BuiltToList(list, tail, out);
  }

  lemma PassStarts<K, V>(p: Row<K, V>, w: seq<Row<K, V>>, f: Contents<K, V>, k: nat, cb: Compare<K, V>)
    requires 0 < k && SList(p, w) && NoDup(w) && Known(w, f) && Frozen(f)
    ensures Passing(null, null, p, [], w, f, k, cb, Pass(Tag(w, f), k, cb))
  {
    assert [] + w == w;
  }

  lemma NothingLeft<K, V>(list: Row?<K, V>, tail: Row?<K, V>, out: seq<Row<K, V>>, todo: seq<Row<K, V>>,
                          f: Contents<K, V>, k: nat, cb: Compare<K, V>, goal: Snapshot<K, V>)
    requires 0 < k && Passing(list, tail, null, out, todo, f, k, cb, goal)
    ensures todo == [] && Built(list, tail, out) && NoDup(out) && Known(out, f) && Frozen(f) && Tag(out, f) == goal
  {
    assert out + [] == out;
  }

  /** The merges of a pass, up to its last row. */
  method MergePairs<K, V>(p0: Row<K, V>, insize: nat, cb: Compare<K, V>, ghost w: seq<Row<K, V>>, ghost f: Contents<K, V>)
    returns (list: Row?<K, V>, tail: Row?<K, V>, nmerges: nat, ghost out: seq<Row<K, V>>)
    requires 0 < insize && SList(p0, w) && NoDup(w) && Known(w, f) && Frozen(f)
    modifies f.Keys`snext
    ensures Built(list, tail, out) && NoDup(out) && Known(out, f) && Frozen(f)
    ensures Tag(out, f) == Pass(Tag(w, f), insize, cb)
    ensures nmerges <= 1 <==> |w| <= 2 * insize
  {
    var p: Row?<K, V> := p0;
    ghost var todo := w;
    ghost var goal := Pass(Tag(w, f), insize, cb);
    list, tail, nmerges, out := null, null, 0, [];
    PassStarts(p0, w, f, insize, cb);
    while p != null
      invariant Passing(list, tail, p, out, todo, f, insize, cb, goal)
      invariant nmerges == 0 ==> |todo| == |w|
      invariant nmerges == 1 ==> |todo| == |w| - Min(2 * insize, |w|)
      invariant nmerges > 1 ==> |w| > 2 * insize
      decreases |todo|
    {
      nmerges := nmerges + 1;
      list, tail, p, out, todo := MergePair(list, tail, p, insize, cb, out, todo, f, goal);
    }
    NothingLeft(list, tail, out, todo, f, insize, cb, goal);
  }

  /** One pass over the list w at p. */
  method MergePass<K, V>(p0: Row<K, V>, insize: nat, cb: Compare<K, V>, ghost w: seq<Row<K, V>>, ghost f: Contents<K, V>)
    returns (list: Row?<K, V>, nmerges: nat, ghost out: seq<Row<K, V>>)
    requires 0 < insize && SList(p0, w) && NoDup(w) && Known(w, f) && Frozen(f)
    modifies f.Keys`snext
    ensures SList(list, out) && NoDup(out) && Known(out, f) && Frozen(f)
    ensures Tag(out, f) == Pass(Tag(w, f), insize, cb)
    ensures nmerges <= 1 <==> |w| <= 2 * insize
  {
    var tail;
    list, tail, nmerges, out := MergePairs(p0, insize, cb, w, f);
    assert |out| == |Tag(out, f)| == |w|;
    CloseList(list, tail, out, f);
  }

  lemma AfterPass<R, I>(s: seq<Entry<R, I>>, t: seq<Entry<R, I>>, k: nat, cb: (I, I) -> bool, goal: seq<Entry<R, I>>)
    requires 0 < k && BottomUp(s, k, cb) == goal && t == Pass(s, k, cb)
    ensures if |s| <= 2 * k then t == goal else BottomUp(t, k * 2, cb) == goal
  {}

  /** The sorted list has the rows it had before. */
  lemma SameRows<K, V>(w: seq<Row<K, V>>, out: seq<Row<K, V>>, f: Contents<K, V>, cb: Compare<K, V>)
    requires Known(w, f) && Known(out, f) && Tag(out, f) == BottomUp(Tag(w, f), 1, cb)
    ensures multiset(out) == multiset(w)
  {
    BottomUpElements(Tag(w, f), 1, cb);
    TagPermuted(Tag(out, f), w, f);
    assert Refs(Tag(out, f)) == out;
  }

  /** Sorts the null-terminated snext list w at list in place; hnext, keys and values are not touched.
      The result is the function BottomUp of the rows and their contents. */
  method ListSort<K, V>(list0: Row?<K, V>, cb: Compare<K, V>, ghost w: seq<Row<K, V>>, ghost f: Contents<K, V>)
    returns (list: Row?<K, V>, ghost out: seq<Row<K, V>>)
    requires SList(list0, w) && NoDup(w) && Known(w, f) && Frozen(f)
    modifies f.Keys`snext
    ensures SList(list, out) && NoDup(out) && Known(out, f) && Frozen(f)
    ensures Tag(out, f) == BottomUp(Tag(w, f), 1, cb) && multiset(out) == multiset(w)
  {
    list, out := list0, w;
    if list == null {
      return;
    }
    var insize, nmerges := 1, 2;
    ghost var goal := BottomUp(Tag(w, f), 1, cb);
    while true
      invariant 0 < insize && out != [] && |out| == |w|
      invariant SList(list, out) && NoDup(out) && Known(out, f) && Frozen(f)
      invariant BottomUp(Tag(out, f), insize, cb) == goal
      decreases |w| - insize
    {
      ghost var before := Tag(out, f);
      list, nmerges, out := MergePass(list, insize, cb, out, f);
      assert |out| == |Tag(out, f)|;
      AfterPass(before, Tag(out, f), insize, cb, goal);
      if nmerges <= 1 {
        SameRows(w, out, f, cb);
        return;
      }
      insize := insize * 2;
    }
  }
}
