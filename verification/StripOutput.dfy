/** Dropping the proxy's own `output` settings from a request before it is sent on. */
module StripOutput {
  import opened Wrappers
  import opened Bytes
  import opened Decimal
  import opened Json
  import opened JsonPointer

  const OUTPUT: bytes := Ascii("output")

  const IMAGE_CONFIG: seq<bytes> := [Ascii("generationConfig"), Ascii("imageConfig")]
  const IMAGE_CONFIG_SNAKE: seq<bytes> := [Ascii("generation_config"), Ascii("image_config")]

  /** Removes `output` from the object at `path`, if there is an object; in order, or as the
      source does. */
  function StripAt(v: Value, path: seq<bytes>, inOrder: bool): Value
    decreases |path|
  {
    if !v.Obj? then v
    else if path == [] then Obj(Remove(v.members, OUTPUT, inOrder))
    else
      match IndexOf(v.members, path[0])
      case None => v
      case Some(i) => Obj(v.members[i := Member(path[0], StripAt(v.members[i].value, path[1..], inOrder))])
  }

  function StripAll(v: Value, inOrder: bool): Value {
    StripAt(StripAt(StripAt(v, [], inOrder), IMAGE_CONFIG, inOrder), IMAGE_CONFIG_SNAKE, inOrder)
  }

  /** What is sent on. */
  function Strip(v: Value): Value {
    StripAll(v, false)
  }

  lemma UpdatedKeys(ms: seq<Member>, i: nat, v: Value)
    requires DistinctKeys(ms) && i < |ms|
    ensures var after := ms[i := Member(ms[i].key, v)];
            && DistinctKeys(after) && Lookup(after, ms[i].key) == Some(v)
            && forall other :: other != ms[i].key ==> Lookup(after, other) == Lookup(ms, other)
  {
    var after := ms[i := Member(ms[i].key, v)];
    assert forall j :: 0 <= j < |ms| ==> after[j].key == ms[j].key;
    LookupAt(after, i);
    forall other | other != ms[i].key
      ensures Lookup(after, other) == Lookup(ms, other)
    {
      match IndexOf(ms, other) {
        case Some(j) => { LookupAt(after, j); }
        case None => { assert forall j :: 0 <= j < |ms| ==> after[j].key != other; }
      }
    }
  }

  lemma OutputIsNoIndex()
    ensures ParseIndex(OUTPUT) == None
  {
    assert !IsDigit(OUTPUT[0]);
  }

  /** What stripping does to the children of a node on the way to the stripped object. */
  lemma ChildOfStrip(v: Value, path: seq<bytes>, inOrder: bool, token: bytes)
    requires Proper(v) && (path != [] ==> ParseIndex(path[0]).None?)
    ensures Child(StripAt(v, path, inOrder), token) ==
            if path == [] then (if token == OUTPUT then None else Child(v, token))
            else match Child(v, token)
                 case None => None
                 case Some(c) => Some(if token == path[0] then StripAt(c, path[1..], inOrder) else c)
  {
    OutputIsNoIndex();
    if v.Obj? {
      if path == [] {
        RemoveExactly(v.members, OUTPUT, inOrder);
      } else {
        match IndexOf(v.members, path[0]) {
          case Some(i) => { UpdatedKeys(v.members, i, StripAt(v.members[i].value, path[1..], inOrder)); }
          case None => {}
        }
      }
    }
  }

  ghost predicate NoIndices(path: seq<bytes>) {
    forall token <- path :: ParseIndex(token).None?
  }

  /** Every node of the stripped tree, by its place: gone below the removed member, stripped on
      the way there, and otherwise the node that was there before. */
  lemma {:induction false} ResolveStripped(v: Value, path: seq<bytes>, inOrder: bool, at: seq<bytes>)
    requires Proper(v) && NoIndices(path)
    ensures Resolve(v, at).Some? ==> Proper(Resolve(v, at).value)
    ensures Resolve(StripAt(v, path, inOrder), at) ==
            if path + [OUTPUT] <= at then None
            else match Resolve(v, at)
                 case None => None
                 case Some(n) => Some(if at <= path then StripAt(n, path[|at|..], inOrder) else n)
    decreases |at|
  {
    if at == [] {
      assert path[0..] == path;
    } else {
      var init, last := at[..|at| - 1], at[|at| - 1];
      assert at == init + [last];
      ResolveStripped(v, path, inOrder, init);
      ChildIsProper(v, init, last);
      PrefixCases(path, init, last);
      if init <= path && Resolve(v, init).Some? {
        var rest := path[|init|..];
        assert path == init + rest;
        assert rest != [] ==> rest[0] == path[|init|] && rest[0] in path;
        assert rest != [] ==> rest[1..] == path[|at|..];
        ChildOfStrip(Resolve(v, init).value, rest, inOrder, last);
      }
    }
  }

  lemma ChildIsProper(v: Value, init: seq<bytes>, token: bytes)
    requires Resolve(v, init).Some? ==> Proper(Resolve(v, init).value)
    ensures var c := Resolve(v, init + [token]); c.Some? ==> Proper(c.value)
  {
    ResolveSnoc(v, init, token);
  }

  /** How a longer place relates to the stripped one. */
  lemma PrefixCases(path: seq<bytes>, init: seq<bytes>, last: bytes)
    ensures var at := init + [last];
            && (path + [OUTPUT] <= at <==> path + [OUTPUT] <= init || (init == path && last == OUTPUT))
            && (at <= path <==> init <= path && init != path && last == path[|init|])
            && (path + [OUTPUT] <= init ==> !(init <= path))
  {
    var at := init + [last];
    assert at[..|init|] == init;
    if path + [OUTPUT] <= at {
      if |path| == |init| {
        assert at[..|path|] == (path + [OUTPUT])[..|path|] == path && at[|path|] == (path + [OUTPUT])[|path|];
      } else {
        assert init[..|path| + 1] == at[..|path| + 1];
      }
    }
    if at <= path {
      assert init == at[..|init|] == path[..|init|];
    }
  }

  lemma {:induction false} StripProper(v: Value, path: seq<bytes>, inOrder: bool)
    requires Proper(v)
    ensures Proper(StripAt(v, path, inOrder))
    decreases |path|
  {
    if v.Obj? {
      var ms := v.members;
      if path == [] {
        RemoveExactly(ms, OUTPUT, inOrder);
        var out := Remove(ms, OUTPUT, inOrder);
        forall i | 0 <= i < |out|
          ensures Proper(out[i].value)
        {
          assert out[i] in ms;
        }
      } else if IndexOf(ms, path[0]).Some? {
        var i := IndexOf(ms, path[0]).value;
        UpdatedKeys(ms, i, StripAt(ms[i].value, path[1..], inOrder));
        StripProper(ms[i].value, path[1..], inOrder);
      }
    }
  }

  lemma ConfigNamesAreNoIndices()
    ensures NoIndices(IMAGE_CONFIG) && NoIndices(IMAGE_CONFIG_SNAKE)
  {
    forall token <- IMAGE_CONFIG + IMAGE_CONFIG_SNAKE
      ensures ParseIndex(token).None?
    {
      assert !IsDigit(token[0]);
    }
  }

  predicate IsStripped(at: seq<bytes>) {
    [OUTPUT] <= at || IMAGE_CONFIG + [OUTPUT] <= at || IMAGE_CONFIG_SNAKE + [OUTPUT] <= at
  }

  /** A request keeps every place but the three `output` members and what is below them. */
  lemma StripExactly(v: Value, at: seq<bytes>)
    requires Proper(v)
    ensures Resolve(Strip(v), at).Some? <==> Resolve(v, at).Some? && !IsStripped(at)
    ensures Resolve(v, at).Some? && !IsStripped(at) && !(at <= IMAGE_CONFIG) && !(at <= IMAGE_CONFIG_SNAKE) ==>
              Resolve(Strip(v), at) == Resolve(v, at)
  {
    ConfigNamesAreNoIndices();
    var one := StripAt(v, [], false);
    var two := StripAt(one, IMAGE_CONFIG, false);
    assert [] + [OUTPUT] == [OUTPUT];
    StripProper(v, [], false);
    StripProper(one, IMAGE_CONFIG, false);
    ResolveStripped(v, [], false, at);
    ResolveStripped(one, IMAGE_CONFIG, false, at);
    ResolveStripped(two, IMAGE_CONFIG_SNAKE, false, at);
  }

  // ----- When stripping keeps the order -----

  /** If there is an object at `path`, its `output` is absent, last or last but one. */
  predicate KeepsOrder(v: Value, path: seq<bytes>) {
    match Resolve(v, path)
    case Some(Obj(ms)) => NearEnd(ms, OUTPUT)
    case _ => true
  }

  lemma {:induction false} ResolveFromFront(v: Value, path: seq<bytes>)
    requires path != []
    ensures Resolve(v, path) == match Child(v, path[0]) case None => None case Some(c) => Resolve(c, path[1..])
    decreases |path|
  {
    var init, last := path[..|path| - 1], path[|path| - 1];
    if init == [] {
      assert path[1..] == [] && Resolve(v, init) == Some(v);
    } else {
      ResolveFromFront(v, init);
      assert path[1..][..|path| - 2] == init[1..];
    }
  }

  /** One removal keeps the order exactly under that condition. */
  lemma {:induction false} StripAtKeepsOrderExactly(v: Value, path: seq<bytes>)
    requires Proper(v) && NoIndices(path)
    ensures StripAt(v, path, false) == StripAt(v, path, true) <==> KeepsOrder(v, path)
    decreases |path|
  {
    if path == [] {
      if v.Obj? { RemovalKeepsOrderExactly(v.members, OUTPUT); }
    } else {
      ResolveFromFront(v, path);
      assert path[0] in path;
      if v.Obj? && IndexOf(v.members, path[0]).Some? {
        var i := IndexOf(v.members, path[0]).value;
        var child := v.members[i].value;
        StripAtKeepsOrderExactly(child, path[1..]);
        SetMemberInjective(v.members, i, path[0], StripAt(child, path[1..], false), StripAt(child, path[1..], true));
      }
    }
  }

  lemma SetMemberInjective(ms: seq<Member>, i: nat, key: bytes, a: Value, b: Value)
    requires i < |ms|
    ensures ms[i := Member(key, a)] == ms[i := Member(key, b)] <==> a == b
  {
    assert ms[i := Member(key, a)][i].value == a && ms[i := Member(key, b)][i].value == b;
  }

  /** Below the root, stripping leaves the keys of the root where they are. */
  lemma RootKeysStay(v: Value, path: seq<bytes>, inOrder: bool)
    requires v.Obj? && path != []
    ensures var after := StripAt(v, path, inOrder);
            after.Obj? && |after.members| == |v.members|
            && forall k :: 0 <= k < |v.members| ==> after.members[k].key == v.members[k].key
  {
  }

  /** A removal at the root that changes the order is not undone by the other two. */
  lemma RootOrderShows(v: Value)
    requires Proper(v) && !KeepsOrder(v, [])
    ensures StripAll(v, false) != StripAll(v, true)
  {
    RemovalKeepsOrderExactly(v.members, OUTPUT);
    var i := IndexOf(v.members, OUTPUT).value;
    var a, b := StripAt(v, [], false), StripAt(v, [], true);
    RootKeysStay(a, IMAGE_CONFIG, false);
    RootKeysStay(b, IMAGE_CONFIG, true);
    RootKeysStay(StripAt(a, IMAGE_CONFIG, false), IMAGE_CONFIG_SNAKE, false);
    RootKeysStay(StripAt(b, IMAGE_CONFIG, true), IMAGE_CONFIG_SNAKE, true);
    assert StripAll(v, false).members[i].key != StripAll(v, true).members[i].key;
  }

  /** Nor is one in the first image configuration. */
  lemma ConfigOrderShows(v: Value)
    requires Proper(v) && !KeepsOrder(v, IMAGE_CONFIG)
    ensures StripAt(StripAt(v, IMAGE_CONFIG, false), IMAGE_CONFIG_SNAKE, false)
         != StripAt(StripAt(v, IMAGE_CONFIG, true), IMAGE_CONFIG_SNAKE, true)
  {
    ConfigNamesAreNoIndices();
    ConfigPlacesDiffer();
    var a, b := StripAt(v, IMAGE_CONFIG, false), StripAt(v, IMAGE_CONFIG, true);
    StripProper(v, IMAGE_CONFIG, false);
    StripProper(v, IMAGE_CONFIG, true);
    ResolveStripped(v, IMAGE_CONFIG, false, IMAGE_CONFIG);
    ResolveStripped(v, IMAGE_CONFIG, true, IMAGE_CONFIG);
    ResolveStripped(a, IMAGE_CONFIG_SNAKE, false, IMAGE_CONFIG);
    ResolveStripped(b, IMAGE_CONFIG_SNAKE, true, IMAGE_CONFIG);
    assert IMAGE_CONFIG[|IMAGE_CONFIG|..] == [];
    RemovalKeepsOrderExactly(Resolve(v, IMAGE_CONFIG).value.members, OUTPUT);
  }

  lemma ConfigPlacesDiffer()
    ensures !(IMAGE_CONFIG <= IMAGE_CONFIG_SNAKE) && !(IMAGE_CONFIG_SNAKE <= IMAGE_CONFIG)
    ensures !(IMAGE_CONFIG_SNAKE + [OUTPUT] <= IMAGE_CONFIG) && !(IMAGE_CONFIG + [OUTPUT] <= IMAGE_CONFIG)
    ensures !(IMAGE_CONFIG + [OUTPUT] <= IMAGE_CONFIG_SNAKE)
    ensures !([OUTPUT] <= IMAGE_CONFIG) && !([OUTPUT] <= IMAGE_CONFIG_SNAKE)
  {
    assert |IMAGE_CONFIG[0]| == 16 && |IMAGE_CONFIG_SNAKE[0]| == 17 && |OUTPUT| == 6;
  }

  /** Removing at one place leaves the other places' objects, and so their condition, alone. */
  lemma OtherPlacesKeep(v: Value)
    requires Proper(v)
    ensures var one := StripAt(v, [], false);
            var two := StripAt(one, IMAGE_CONFIG, false);
            && Proper(one) && Proper(two)
            && (KeepsOrder(one, IMAGE_CONFIG) <==> KeepsOrder(v, IMAGE_CONFIG))
            && (KeepsOrder(two, IMAGE_CONFIG_SNAKE) <==> KeepsOrder(v, IMAGE_CONFIG_SNAKE))
  {
    ConfigNamesAreNoIndices();
    ConfigPlacesDiffer();
    var one := StripAt(v, [], false);
    assert [] + [OUTPUT] == [OUTPUT];
    StripProper(v, [], false);
    StripProper(one, IMAGE_CONFIG, false);
    ResolveStripped(v, [], false, IMAGE_CONFIG);
    ResolveStripped(v, [], false, IMAGE_CONFIG_SNAKE);
    ResolveStripped(one, IMAGE_CONFIG, false, IMAGE_CONFIG_SNAKE);
  }

  /** The stripped request has its members in the order of the original exactly when, in each of
      the three objects that is there, `output` is absent, last or last but one. */
  lemma StripKeepsOrderExactly(v: Value)
    requires Proper(v)
    ensures Strip(v) == StripAll(v, true) <==>
            KeepsOrder(v, []) && KeepsOrder(v, IMAGE_CONFIG) && KeepsOrder(v, IMAGE_CONFIG_SNAKE)
  {
    ConfigNamesAreNoIndices();
    var one := StripAt(v, [], false);
    var two := StripAt(one, IMAGE_CONFIG, false);
    OtherPlacesKeep(v);
    StripAtKeepsOrderExactly(v, []);
    if !KeepsOrder(v, []) {
      RootOrderShows(v);
    } else if !KeepsOrder(v, IMAGE_CONFIG) {
      ConfigOrderShows(one);
    } else {
      StripAtKeepsOrderExactly(one, IMAGE_CONFIG);
      StripAtKeepsOrderExactly(two, IMAGE_CONFIG_SNAKE);
    }
  }

  /** A request that comes out in another order. */
  const REORDERED: Value := Obj([Member(OUTPUT, Null), Member(Ascii("a"), Null), Member(Ascii("b"), Null)])

  lemma StripCanReorder()
    ensures Proper(REORDERED) && !KeepsOrder(REORDERED, [])
    ensures Strip(REORDERED) == Obj([Member(Ascii("b"), Null), Member(Ascii("a"), Null)])
    ensures StripAll(REORDERED, true) == Obj([Member(Ascii("a"), Null), Member(Ascii("b"), Null)])
  {
    var ms := REORDERED.members;
    KeyLengths();
    LookupAt(ms, 0);
    SwapOfThree(ms);
    NoConfigAmong([ms[2], ms[1]], false);
    NoConfigAmong([ms[1], ms[2]], true);
  }

  lemma KeyLengths()
    ensures |OUTPUT| == 6 && |Ascii("a")| == 1 && |Ascii("b")| == 1 && Ascii("a")[0] != Ascii("b")[0]
    ensures DistinctKeys(REORDERED.members)
  {
  }

  lemma SwapOfThree(ms: seq<Member>)
    requires |ms| == 3 && IndexOf(ms, OUTPUT) == Some(0)
    ensures SwapRemove(ms, OUTPUT) == [ms[2], ms[1]] && RemoveInOrder(ms, OUTPUT) == [ms[1], ms[2]]
  {
  }

  /** Short keys name no configuration, so the other two removals find nothing. */
  lemma NoConfigAmong(ms: seq<Member>, inOrder: bool)
    requires forall m <- ms :: |m.key| == 1
    ensures StripAt(StripAt(Obj(ms), IMAGE_CONFIG, inOrder), IMAGE_CONFIG_SNAKE, inOrder) == Obj(ms)
  {
    assert |IMAGE_CONFIG[0]| == 16 && |IMAGE_CONFIG_SNAKE[0]| == 17;
    assert IndexOf(ms, IMAGE_CONFIG[0]).None? && IndexOf(ms, IMAGE_CONFIG_SNAKE[0]).None?;
  }
}
