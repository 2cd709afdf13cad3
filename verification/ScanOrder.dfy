/** The order in which the scan finds images: an object's own image first, then member by member
    and item by item, each with everything below it. */
module ScanOrder {
  import opened Wrappers
  import opened Bytes
  import opened Decimal
  import opened Json
  import opened JsonPointer
  import opened RequestScan

  /** The place is that of the `inlineData` member of the object reached after `k` tokens. */
  predicate IsOwn(at: seq<bytes>, k: nat) {
    |at| == k + 1 && at[k] == Ascii("inlineData")
  }

  /** Where the two places part, in this node, the first goes first. */
  predicate GoesFirst(node: Value, a: seq<bytes>, b: seq<bytes>, k: nat)
    requires k < |a| && k < |b|
  {
    match node
    case Obj(ms) =>
      if IsOwn(a, k) then true
      else
        && !IsOwn(b, k)
        && (exists i, j :: 0 <= i < j < |ms| && ms[i].key == a[k] && ms[j].key == b[k])
    case Arr(items) =>
      exists i: nat, j: nat :: i < j < |items| && a[k] == Dec(i) && b[k] == Dec(j)
    case _ => false
  }

  /** `a` comes before `b`: it is on the way to it, or goes first where they part. */
  ghost predicate Precedes(root: Value, a: seq<bytes>, b: seq<bytes>) {
    || (a <= b && a != b)
    || exists k: nat ::
         && k < |a| && k < |b| && a[..k] == b[..k] && a[k] != b[k]
         && Resolve(root, a[..k]).Some? && GoesFirst(Resolve(root, a[..k]).value, a, b, k)
  }

  ghost predicate InOrder(root: Value, found: seq<Found>) {
    forall i, j :: 0 <= i < j < |found| ==> Precedes(root, found[i].at, found[j].at)
  }

  lemma OrderAppend(root: Value, a: seq<Found>, b: seq<Found>)
    requires InOrder(root, a) && InOrder(root, b) && forall f <- a, g <- b :: Precedes(root, f.at, g.at)
    ensures InOrder(root, a + b)
  {
  }

  lemma {:induction false} ScanInOrder(root: Value, v: Value, at: seq<bytes>)
    requires Resolve(root, at) == Some(v) && Proper(v)
    ensures InOrder(root, Scan(v, at))
    decreases v, 1
  {
    match v {
      case Obj(ms) => {
        MembersInOrder(root, v, at);
        MembersDistinct(root, v, at);
        forall f <- ScanOwn(ms, at), g <- ScanMembers(ms, at, |ms|)
          ensures Precedes(root, f.at, g.at)
        {
          OwnGoesFirst(root, v, at, g.at);
        }
        OrderAppend(root, ScanOwn(ms, at), ScanMembers(ms, at, |ms|));
      }
      case Arr(items) => { ItemsInOrder(root, v, at); }
      case _ => {}
    }
  }

  lemma OwnGoesFirst(root: Value, v: Value, at: seq<bytes>, b: seq<bytes>)
    requires Resolve(root, at) == Some(v) && v.Obj? && |b| > |at| + 1 && b[..|at|] == at
    ensures Precedes(root, at + [INLINE_DATA], b)
  {
    var a, k := at + [INLINE_DATA], |at|;
    assert a[..k] == at;
    if b[k] == INLINE_DATA {
      assert b[..k + 1] == a;
    } else {
      assert GoesFirst(v, a, b, k);
    }
  }

  /** Places below two different members of one object. */
  lemma MembersApart(root: Value, v: Value, at: seq<bytes>, a: seq<bytes>, b: seq<bytes>, i: nat, j: nat)
    requires Resolve(root, at) == Some(v) && v.Obj? && DistinctKeys(v.members) && i < j < |v.members|
    requires |a| > |at| + 1 && |b| > |at| + 1 && a[..|at|] == at && b[..|at|] == at
    requires a[|at|] == v.members[i].key && b[|at|] == v.members[j].key
    ensures Precedes(root, a, b)
  {
    assert GoesFirst(v, a, b, |at|);
  }

  lemma MembersInOrder(root: Value, v: Value, at: seq<bytes>)
    requires v.Obj? && Resolve(root, at) == Some(v) && Proper(v)
    ensures InOrder(root, ScanMembers(v.members, at, |v.members|))
    ensures forall f <- ScanMembers(v.members, at, |v.members|) :: Below(at, f)
    decreases v, 0
  {
    var ms := v.members;
    for i := 0 to |ms|
      invariant InOrder(root, ScanMembers(ms, at, i)) && BelowMembers(ScanMembers(ms, at, i), ms, at, i)
      invariant forall f <- ScanMembers(ms, at, i) :: Below(at, f)
    {
      var below := at + [ms[i].key];
      var done, more := ScanMembers(ms, at, i), Scan(ms[i].value, below);
      ResolveSnoc(root, at, ms[i].key);
      ChildOfMember(ms, i);
      ScanInOrder(root, ms[i].value, below);
      ScanSound(root, ms[i].value, below);
      DeeperAll(at, ms[i].key, more);
      forall f <- done, g <- more
        ensures Precedes(root, f.at, g.at)
      {
        var k :| 0 <= k < i && f.at[|at|] == ms[k].key;
        MembersApart(root, v, at, f.at, g.at, k, i);
      }
      OrderAppend(root, done, more);
    }
  }

  lemma ItemsApart(root: Value, v: Value, at: seq<bytes>, a: seq<bytes>, b: seq<bytes>, i: nat, j: nat)
    requires Resolve(root, at) == Some(v) && v.Arr? && i < j < |v.items|
    requires |a| > |at| && |b| > |at| && a[..|at|] == at && b[..|at|] == at && a[|at|] == Dec(i) && b[|at|] == Dec(j)
    ensures Precedes(root, a, b)
  {
    DifferentIndices(j);
    assert GoesFirst(v, a, b, |at|);
  }

  lemma ItemsInOrder(root: Value, v: Value, at: seq<bytes>)
    requires v.Arr? && Resolve(root, at) == Some(v) && Proper(v)
    ensures InOrder(root, ScanItems(v.items, at, |v.items|))
    decreases v, 0
  {
    var items := v.items;
    for i := 0 to |items|
      invariant InOrder(root, ScanItems(items, at, i))
      invariant forall f <- ScanItems(items, at, i) :: Below(at, f) && exists k: nat :: k < i && f.at[|at|] == Dec(k)
    {
      var below := at + [Dec(i)];
      var done, more := ScanItems(items, at, i), Scan(items[i], below);
      ResolveSnoc(root, at, Dec(i));
      ChildOfItem(items, i);
      ScanInOrder(root, items[i], below);
      ScanSound(root, items[i], below);
      DeeperAll(at, Dec(i), more);
      forall f <- done, g <- more
        ensures Precedes(root, f.at, g.at)
      {
        var k: nat :| k < i && f.at[|at|] == Dec(k);
        ItemsApart(root, v, at, f.at, g.at, k, i);
      }
      OrderAppend(root, done, more);
    }
  }

  /** The images of a request are found in this order. */
  lemma FoundInOrder(body: Value)
    requires Proper(body)
    ensures InOrder(body, Scan(body, []))
  {
    ScanInOrder(body, body, []);
  }
}
