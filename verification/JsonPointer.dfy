/** JSON pointers (RFC 6901). */
module JsonPointer {
  import opened Wrappers
  import opened Bytes
  import opened Decimal
  import opened Json

  const SLASH: byte := 47
  const TILDE: byte := 126
  const ZERO: byte := 48
  const ONE: byte := 49

  /** Replaces every occurrence of a byte. */
  function ReplaceByte(s: bytes, c: byte, put: bytes): bytes {
    if s == [] then [] else (if s[0] == c then put else [s[0]]) + ReplaceByte(s[1..], c, put)
  }

  /** Replaces every occurrence of the pair `c d`, from left to right. */
  function ReplacePair(s: bytes, c: byte, d: byte, put: bytes): bytes
    decreases |s|
  {
    if s == [] then []
    else if |s| >= 2 && s[0] == c && s[1] == d then put + ReplacePair(s[2..], c, d, put)
    else [s[0]] + ReplacePair(s[1..], c, d, put)
  }

  function Escape(token: bytes): bytes {
    ReplaceByte(ReplaceByte(token, TILDE, [TILDE, ZERO]), SLASH, [TILDE, ONE])
  }

  /** Section 4 of RFC 6901: `~1` first, then `~0`. */
  function Unescape(s: bytes): bytes {
    ReplacePair(ReplacePair(s, TILDE, ONE, [SLASH]), TILDE, ZERO, [TILDE])
  }

  lemma ReplaceByteCons(first: byte, rest: bytes, c: byte, put: bytes)
    ensures ReplaceByte([first] + rest, c, put) == (if first == c then put else [first]) + ReplaceByte(rest, c, put)
  {
    assert ([first] + rest)[1..] == rest;
  }

  lemma ReplacePairCons(first: byte, rest: bytes, c: byte, d: byte, put: bytes)
    requires first != c || (rest != [] && rest[0] != d)
    ensures ReplacePair([first] + rest, c, d, put) == [first] + ReplacePair(rest, c, d, put)
  {
    assert ([first] + rest)[1..] == rest;
  }

  lemma ReplacePairHit(rest: bytes, c: byte, d: byte, put: bytes)
    ensures ReplacePair([c, d] + rest, c, d, put) == put + ReplacePair(rest, c, d, put)
  {
    assert ([c, d] + rest)[2..] == rest;
  }

  /** Undoing the second replacement of `Escape`. */
  lemma {:induction false} SlashesComeBack(s: bytes)
    ensures var t := ReplaceByte(s, TILDE, [TILDE, ZERO]);
            ReplacePair(ReplaceByte(t, SLASH, [TILDE, ONE]), TILDE, ONE, [SLASH]) == t
    decreases |s|
  {
    if s != [] {
      SlashesComeBack(s[1..]);
      var t := ReplaceByte(s[1..], TILDE, [TILDE, ZERO]);
      var e := ReplaceByte(t, SLASH, [TILDE, ONE]);
      if s[0] == TILDE {
        assert [TILDE, ZERO] + t == [TILDE] + ([ZERO] + t);
        ReplaceByteCons(TILDE, [ZERO] + t, SLASH, [TILDE, ONE]);
        ReplaceByteCons(ZERO, t, SLASH, [TILDE, ONE]);
        ReplacePairCons(TILDE, [ZERO] + e, TILDE, ONE, [SLASH]);
        ReplacePairCons(ZERO, e, TILDE, ONE, [SLASH]);
      } else {
        ReplaceByteCons(s[0], t, SLASH, [TILDE, ONE]);
        if s[0] == SLASH {
          ReplacePairHit(e, TILDE, ONE, [SLASH]);
        } else {
          ReplacePairCons(s[0], e, TILDE, ONE, [SLASH]);
        }
      }
    }
  }

  lemma {:induction false} TildesComeBack(s: bytes)
    ensures ReplacePair(ReplaceByte(s, TILDE, [TILDE, ZERO]), TILDE, ZERO, [TILDE]) == s
    decreases |s|
  {
    if s != [] {
      TildesComeBack(s[1..]);
      var t := ReplaceByte(s[1..], TILDE, [TILDE, ZERO]);
      if s[0] == TILDE {
        assert ([TILDE, ZERO] + t)[2..] == t;
      } else {
        assert ([s[0]] + t)[1..] == t;
      }
      assert s == [s[0]] + s[1..];
    }
  }

  lemma UnescapeOfEscape(token: bytes)
    ensures Unescape(Escape(token)) == token
  {
    SlashesComeBack(token);
    TildesComeBack(token);
  }

  lemma {:induction false} NoSlashLeft(s: bytes)
    ensures SLASH !in ReplaceByte(s, SLASH, [TILDE, ONE])
    decreases |s|
  {
    if s != [] { NoSlashLeft(s[1..]); }
  }

  // ----- Pointers -----

  function Extend(path: bytes, token: bytes): bytes {
    path + [SLASH] + Escape(token)
  }

  function PointerOf(tokens: seq<bytes>): bytes {
    if tokens == [] then [] else Extend(PointerOf(tokens[..|tokens| - 1]), tokens[|tokens| - 1])
  }

  lemma PointerSnoc(tokens: seq<bytes>, token: bytes)
    ensures PointerOf(tokens + [token]) == Extend(PointerOf(tokens), token)
  {
    assert (tokens + [token])[..|tokens|] == tokens;
  }

  /** Section 3 of RFC 6901: every token stands behind a slash, with `~` written as `~0` and `/` as
      `~1` and every other byte as it is. */
  lemma PointerText(tokens: seq<bytes>, token: bytes, first: byte, rest: bytes)
    ensures PointerOf([]) == [] && PointerOf(tokens + [token]) == PointerOf(tokens) + Ascii("/") + Escape(token)
    ensures Escape([]) == []
    ensures Escape([first] + rest)
         == (if first == '~' as int then Ascii("~0") else if first == '/' as int then Ascii("~1") else [first]) +
            Escape(rest)
  {
    PointerSnoc(tokens, token);
    var t := ReplaceByte(rest, TILDE, [TILDE, ZERO]);
    ReplaceByteCons(first, rest, TILDE, [TILDE, ZERO]);
    if first == TILDE {
      assert [TILDE, ZERO] + t == [TILDE] + ([ZERO] + t);
      ReplaceByteCons(TILDE, [ZERO] + t, SLASH, [TILDE, ONE]);
      ReplaceByteCons(ZERO, t, SLASH, [TILDE, ONE]);
    } else {
      ReplaceByteCons(first, t, SLASH, [TILDE, ONE]);
    }
  }

  function LastSlash(p: bytes): (r: Option<nat>)
    ensures r.Some? ==> r.value < |p| && p[r.value] == SLASH && SLASH !in p[r.value + 1..]
    ensures r.None? ==> SLASH !in p
  {
    if p == [] then None
    else if p[|p| - 1] == SLASH then Some(|p| - 1)
    else
      var r := LastSlash(p[..|p| - 1]);
      assert p == p[..|p| - 1] + [p[|p| - 1]];
      assert r.Some? ==> p[r.value + 1..] == p[..|p| - 1][r.value + 1..] + [p[|p| - 1]];
      r
  }

  /** Section 3 of RFC 6901: a sequence of tokens, each behind a slash. */
  function Parse(p: bytes): Option<seq<bytes>>
    decreases |p|
  {
    if p == [] then Some([])
    else
      match LastSlash(p)
      case None => None
      case Some(k) =>
        match Parse(p[..k])
        case None => None
        case Some(tokens) => Some(tokens + [Unescape(p[k + 1..])])
  }

  /** The pointer determines the tokens: nothing collides after escaping. */
  lemma {:induction false} ParseOfPointer(tokens: seq<bytes>)
    ensures Parse(PointerOf(tokens)) == Some(tokens)
    decreases |tokens|
  {
    if tokens != [] {
      var init, token := tokens[..|tokens| - 1], tokens[|tokens| - 1];
      assert tokens == init + [token];
      ParseOfPointer(init);
      LastTokenFound(PointerOf(init), token);
      UnescapeOfEscape(token);
    }
  }

  lemma {:induction false} LastSlashIs(p: bytes, k: nat)
    requires k < |p| && p[k] == SLASH && SLASH !in p[k + 1..]
    ensures LastSlash(p) == Some(k)
    decreases |p|
  {
    if k < |p| - 1 {
      var init := p[..|p| - 1];
      assert p[k + 1..] == init[k + 1..] + [p[|p| - 1]];
      LastSlashIs(init, k);
    }
  }

  lemma LastTokenFound(path: bytes, token: bytes)
    ensures var p := Extend(path, token);
            && LastSlash(p) == Some(|path|) && p[..|path|] == path && p[|path| + 1..] == Escape(token)
  {
    var p := Extend(path, token);
    NoSlashLeft(ReplaceByte(token, TILDE, [TILDE, ZERO]));
    assert p[|path| + 1..] == Escape(token);
    LastSlashIs(p, |path|);
  }

  lemma PointersAreInjective(a: seq<bytes>, b: seq<bytes>)
    ensures PointerOf(a) == PointerOf(b) <==> a == b
  {
    ParseOfPointer(a);
    ParseOfPointer(b);
  }

  // ----- Evaluation -----

  function Child(v: Value, token: bytes): Option<Value> {
    match v
    case Obj(ms) => Lookup(ms, token)
    case Arr(items) =>
      (match ParseIndex(token)
       case Some(i) => if i < |items| then Some(items[i]) else None
       case None => None)
    case _ => None
  }

  function Resolve(v: Value, tokens: seq<bytes>): Option<Value> {
    if tokens == [] then Some(v)
    else
      match Resolve(v, tokens[..|tokens| - 1])
      case None => None
      case Some(parent) => Child(parent, tokens[|tokens| - 1])
  }

  /** Section 4 of RFC 6901. */
  function Evaluate(v: Value, p: bytes): Option<Value> {
    match Parse(p)
    case None => None
    case Some(tokens) => Resolve(v, tokens)
  }

  lemma ResolveSnoc(v: Value, tokens: seq<bytes>, token: bytes)
    ensures Resolve(v, tokens + [token])
              == (match Resolve(v, tokens) case None => None case Some(parent) => Child(parent, token))
  {
    assert (tokens + [token])[..|tokens|] == tokens;
  }

  lemma {:induction false} ResolvePrefix(v: Value, tokens: seq<bytes>, n: nat)
    requires n <= |tokens| && Resolve(v, tokens).Some?
    ensures Resolve(v, tokens[..n]).Some?
    decreases |tokens|
  {
    if n == |tokens| {
      assert tokens[..n] == tokens;
    } else {
      var init := tokens[..|tokens| - 1];
      assert init[..n] == tokens[..n];
      ResolvePrefix(v, init, n);
    }
  }

  lemma ChildOfItem(items: seq<Value>, i: nat)
    requires i < |items|
    ensures Child(Arr(items), Dec(i)) == Some(items[i])
  {
    IndexTextIsExact(Dec(i), i);
  }

  lemma ChildOfMember(ms: seq<Member>, i: nat)
    requires DistinctKeys(ms) && i < |ms|
    ensures Child(Obj(ms), ms[i].key) == Some(ms[i].value)
  {
    LookupAt(ms, i);
  }

  /** Decimal indices need no escaping, so writing an index as it is extends the pointer by a token. */
  lemma IndexIsPlain(i: nat)
    ensures Escape(Dec(i)) == Dec(i)
  {
    DecCanonical(i);
    NothingToReplace(Dec(i), TILDE, [TILDE, ZERO]);
    NothingToReplace(Dec(i), SLASH, [TILDE, ONE]);
  }

  lemma {:induction false} NothingToReplace(s: bytes, c: byte, put: bytes)
    requires c !in s
    ensures ReplaceByte(s, c, put) == s
    decreases |s|
  {
    if s != [] {
      NothingToReplace(s[1..], c, put);
      assert s == [s[0]] + s[1..];
    }
  }
}
