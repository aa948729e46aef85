/** Wrapped error trees: matching at any depth, and what translating them keeps. */
module ErrorTrees {
  import opened Text

  /**
   * An error value; `id` is its identity. A node may wrap several errors. API errors match by code,
   * operation errors carry the operation that failed, and other types may bring methods of
   * their own.
   */
  datatype Err =
    | Leaf(id: nat, text: string)
    | Api(id: nat, status: int, code: string, text: string)
    | Operation(id: nat, op: string, text: string, inner: seq<Err>)
    | Wrap(id: nat, text: string, inner: seq<Err>)
    | Other(id: nat, text: string, inner: seq<Err>)

  const ERR_NOT_FOUND := Leaf(0, "not found")
  const ERR_PRESET_LIFECYCLE := Leaf(1, "preset lifecycle")
  const ERR_DAEMON_UNREACHABLE := Leaf(2, "tether daemon unreachable")
  const CONNECTION_REFUSED := Leaf(3, "connection refused")
  const NO_ENTRY := Leaf(4, "no such file or directory")

  /**
   * The methods that error types from elsewhere may bring: one that says which targets it matches, and
   * ones that give an API error or an operation error for it.
   */
  datatype Foreign = Foreign(matches: (Err, Err) -> bool, asApi: Err -> Option<Err>, asOperation: Err -> Option<Err>)
  {
    /** Whether an error is of a type from elsewhere; wrappers and API errors have their own types here. */
    predicate Owns(e: Err) {
      e.Leaf? || e.Operation? || e.Other?
    }

    predicate Matches(e: Err, target: Err) {
      Owns(e) && matches(e, target)
    }

    function AsApi(e: Err): (r: Option<Err>)
      ensures r.Some? ==> r.value.Api?
    {
      if Owns(e) && asApi(e).Some? && asApi(e).value.Api? then asApi(e) else None
    }

    function AsOperation(e: Err): (r: Option<Err>)
      ensures r.Some? ==> r.value.Operation?
    {
      if Owns(e) && asOperation(e).Some? && asOperation(e).value.Operation? then asOperation(e) else None
    }

    /** A sentinel is a bare value: it has no methods. */
    ghost predicate Bare(sentinel: Err) {
      sentinel.Leaf? && AsApi(sentinel).None? && forall target :: !Matches(sentinel, target)
    }
  }

  /** An API error target matches on the status and code it sets. */
  predicate ApiMatches(e: Err, target: Err) {
    e.Api? && target.Api? &&
    (target.status == 0 || e.status == target.status) &&
    (target.code == "" || e.code == target.code)
  }

  /** `e` or something it wraps is the target or matches it. */
  predicate Is(e: Err, target: Err, f: Foreign)
    decreases e
  {
    e == target || ApiMatches(e, target) || f.Matches(e, target) ||
    match e
    case Operation(_, _, _, inner) => (exists c :: c in inner && Is(c, target, f))
    case Wrap(_, _, inner) => (exists c :: c in inner && Is(c, target, f))
    case Other(_, _, inner) => (exists c :: c in inner && Is(c, target, f))
    case _ => false
  }

  /** The first API error of a tree, each node before what it wraps. */
  function FindApi(e: Err, f: Foreign): (r: Option<Err>)
    ensures r.Some? ==> r.value.Api?
    decreases e, 0
  {
    if e.Api? then Some(e)
    else if f.AsApi(e).Some? then f.AsApi(e)
    else
      match e
      case Operation(_, _, _, inner) => FindFirstApi(inner, f)
      case Wrap(_, _, inner) => FindFirstApi(inner, f)
      case Other(_, _, inner) => FindFirstApi(inner, f)
      case _ => None
  }

  function FindFirstApi(es: seq<Err>, f: Foreign): (r: Option<Err>)
    ensures r.Some? ==> r.value.Api?
    decreases es, 1
  {
    if es == [] then None
    else
      var first := FindApi(es[0], f);
      if first.Some? then first else FindFirstApi(es[1..], f)
  }

  predicate IsNotFound(e: Err, f: Foreign) {
    var api := FindApi(e, f);
    api.Some? && (api.value.status == 404 || api.value.code == "not_found")
  }

  predicate IsPresetLifecycle(e: Err, f: Foreign) {
    var api := FindApi(e, f);
    api.Some? && (api.value.status == 422 || api.value.code == "preset_lifecycle")
  }

  /** An error that wraps a sentinel and another error, under a new identity. */
  function Both(id: nat, sentinel: Err, e: Err): Err {
    Wrap(id, sentinel.text + ": " + e.text, [sentinel, e])
  }

  /** Translation of a daemon error; None stands for no error. `id` is the identity of a new wrapper. */
  function MapStoreError(e: Option<Err>, id: nat, f: Foreign): Option<Err> {
    if e.None? then None
    else
      match FindApi(e.value, f)
      case None => e
      case Some(api) =>
        if api.code == "not_found" || api.status == 404 then Some(Both(id, ERR_NOT_FOUND, e.value))
        else if api.code == "preset_lifecycle" || api.status == 422 then Some(Both(id, ERR_PRESET_LIFECYCLE, e.value))
        else e
  }

  predicate Contains(s: string, part: string) {
    exists i :: 0 <= i <= |s| && part <= s[i..]
  }

  /** The first operation error of a tree. */
  function FindOperation(e: Err, f: Foreign): (r: Option<Err>)
    ensures r.Some? ==> r.value.Operation?
    decreases e, 0
  {
    if e.Operation? then Some(e)
    else if f.AsOperation(e).Some? then f.AsOperation(e)
    else
      match e
      case Wrap(_, _, inner) => FindFirstOperation(inner, f)
      case Other(_, _, inner) => FindFirstOperation(inner, f)
      case _ => None
  }

  function FindFirstOperation(es: seq<Err>, f: Foreign): (r: Option<Err>)
    ensures r.Some? ==> r.value.Operation?
    decreases es, 1
  {
    if es == [] then None
    else
      var first := FindOperation(es[0], f);
      if first.Some? then first else FindFirstOperation(es[1..], f)
  }

  predicate IsUnreachable(e: Err, f: Foreign) {
    || Is(e, CONNECTION_REFUSED, f) || Is(e, NO_ENTRY, f)
    || (FindOperation(e, f).Some? && FindOperation(e, f).value.op == "dial")
    || Contains(e.text, "connection refused") || Contains(e.text, "no such file or directory")
  }

  function WrapIfUnreachable(e: Err, id: nat, f: Foreign): Err {
    if IsUnreachable(e, f) then Both(id, ERR_DAEMON_UNREACHABLE, e) else e
  }

  /** Wrapping with a sentinel adds that sentinel, and the wrapper itself, to what matches, and nothing else. */
  lemma {:induction false} BothAddsOnlyItself(id: nat, sentinel: Err, e: Err, target: Err, f: Foreign)
    requires f.Bare(sentinel)
    ensures Is(Both(id, sentinel, e), target, f) <==>
            Is(e, target, f) || target == sentinel || target == Both(id, sentinel, e)
    ensures FindApi(Both(id, sentinel, e), f) == FindApi(e, f)
  {
    var both := Both(id, sentinel, e);
    assert both.inner[0] == sentinel && both.inner[1] == e;
    assert sentinel in both.inner && e in both.inner;
    assert Is(sentinel, target, f) <==> target == sentinel;
    assert both.inner[1..] == [e] && [e][1..] == [];
    assert FindFirstApi([e], f) == FindApi(e, f);
    assert FindApi(sentinel, f) == None;
  }

  /** The sentinels of this library and of the messaging library have no methods. */
  ghost predicate BareSentinels(f: Foreign) {
    f.Bare(ERR_NOT_FOUND) && f.Bare(ERR_PRESET_LIFECYCLE) && f.Bare(ERR_DAEMON_UNREACHABLE)
  }

  /**
   * Translation loses nothing: whatever matched still matches, the API error found is the same one, and
   * what matches besides is exactly the sentinel its kind calls for (and the new wrapper). Whatever
   * methods other errors in the tree have.
   */
  lemma {:induction false} TranslationKeepsMatches(e: Err, id: nat, target: Err, f: Foreign)
    requires BareSentinels(f)
    ensures var mapped := MapStoreError(Some(e), id, f).value;
            && (Is(e, target, f) ==> Is(mapped, target, f))
            && FindApi(mapped, f) == FindApi(e, f)
            && (Is(mapped, target, f) <==>
                  || Is(e, target, f)
                  || (target == ERR_NOT_FOUND && IsNotFound(e, f))
                  || (target == ERR_PRESET_LIFECYCLE && IsPresetLifecycle(e, f) && !IsNotFound(e, f))
                  || target == mapped)
  {
    hide Is, FindApi, Foreign.Bare;
    BothAddsOnlyItself(id, ERR_NOT_FOUND, e, target, f);
    BothAddsOnlyItself(id, ERR_PRESET_LIFECYCLE, e, target, f);
    IsItself(e, f);
  }

  lemma {:induction false} IsItself(e: Err, f: Foreign)
    ensures Is(e, e, f)
  {
  }

  /** The translated error is the not-found sentinel's exactly when it already was or the daemon said so. */
  lemma {:induction false} TranslatedNotFound(e: Err, id: nat, f: Foreign)
    requires BareSentinels(f)
    ensures var mapped := MapStoreError(Some(e), id, f).value;
            && (Is(mapped, ERR_NOT_FOUND, f) <==> Is(e, ERR_NOT_FOUND, f) || IsNotFound(e, f))
            && (IsNotFound(mapped, f) <==> IsNotFound(e, f))
  {
    hide Is, FindApi, BareSentinels;
    TranslationKeepsMatches(e, id, ERR_NOT_FOUND, f);
    if MapStoreError(Some(e), id, f).value == ERR_NOT_FOUND {
      IsItself(e, f);
    }
  }

  /** Marking an unreachable daemon loses nothing either, and marks exactly the unreachable ones. */
  lemma {:induction false} UnreachableIsMarked(e: Err, id: nat, target: Err, f: Foreign)
    requires BareSentinels(f)
    ensures var marked := WrapIfUnreachable(e, id, f);
            && (Is(e, target, f) ==> Is(marked, target, f))
            && (Is(marked, ERR_DAEMON_UNREACHABLE, f) <==> Is(e, ERR_DAEMON_UNREACHABLE, f) || IsUnreachable(e, f))
            && IsNotFound(marked, f) == IsNotFound(e, f)
  {
    hide Is, FindApi, IsUnreachable, Foreign.Bare;
    BothAddsOnlyItself(id, ERR_DAEMON_UNREACHABLE, e, target, f);
    BothAddsOnlyItself(id, ERR_DAEMON_UNREACHABLE, e, ERR_DAEMON_UNREACHABLE, f);
  }

  // The searches, over a tree written out as a list.

  /** The errors of a tree, each before what it wraps, from left to right. */
  function Nodes(e: Err): seq<Err>
    decreases e, 0
  {
    match e
    case Operation(_, _, _, inner) => [e] + NodesOf(inner)
    case Wrap(_, _, inner) => [e] + NodesOf(inner)
    case Other(_, _, inner) => [e] + NodesOf(inner)
    case _ => [e]
  }

  function NodesOf(es: seq<Err>): seq<Err>
    decreases es, 1
  {
    if es == [] then [] else Nodes(es[0]) + NodesOf(es[1..])
  }

  /** One error against a target: the same, an API error with the status and code asked for, or by its method. */
  ghost predicate Meets(e: Err, target: Err, f: Foreign) {
    || e == target
    || f.Matches(e, target)
    || (match (e, target)
        case (Api(_, status, code, _), Api(_, wanted, wantedCode, _)) =>
          wanted in {0, status} && wantedCode in {"", code}
        case _ => false)
  }

  ghost predicate SomeMeets(es: seq<Err>, target: Err, f: Foreign) {
    exists i :: 0 <= i < |es| && Meets(es[i], target, f)
  }

  lemma {:induction false} SomeMeetsCons(e: Err, rest: seq<Err>, target: Err, f: Foreign)
    ensures SomeMeets([e] + rest, target, f) <==> Meets(e, target, f) || SomeMeets(rest, target, f)
  {
    hide Meets;
    var all := [e] + rest;
    assert all[0] == e && forall i :: 0 <= i < |rest| ==> all[i + 1] == rest[i];
    if SomeMeets(all, target, f) {
      var i :| 0 <= i < |all| && Meets(all[i], target, f);
      assert i > 0 ==> rest[i - 1] == all[i];
    }
  }

  lemma {:induction false} SomeMeetsAppend(a: seq<Err>, b: seq<Err>, target: Err, f: Foreign)
    ensures SomeMeets(a + b, target, f) <==> SomeMeets(a, target, f) || SomeMeets(b, target, f)
  {
    hide Meets;
    var both := a + b;
    assert forall i :: 0 <= i < |a| ==> both[i] == a[i];
    assert forall i :: 0 <= i < |b| ==> both[|a| + i] == b[i];
    if SomeMeets(both, target, f) {
      var i :| 0 <= i < |both| && Meets(both[i], target, f);
      assert both[i] == if i < |a| then a[i] else b[i - |a|];
    }
  }

  /** An error matches a target if and only if some error of its tree meets it. */
  lemma {:induction false} MatchIsSearch(e: Err, target: Err, f: Foreign)
    ensures Is(e, target, f) <==> SomeMeets(Nodes(e), target, f)
    decreases e, 0
  {
    hide SomeMeets;
    SomeMeetsCons(e, [], target, f);
    assert [e] + [] == [e];
    NoneMeets(target, f);
    match e
    case Operation(_, _, _, inner) =>
      MatchIsSearchOf(inner, target, f);
      SomeMeetsCons(e, NodesOf(inner), target, f);
    case Wrap(_, _, inner) =>
      MatchIsSearchOf(inner, target, f);
      SomeMeetsCons(e, NodesOf(inner), target, f);
    case Other(_, _, inner) =>
      MatchIsSearchOf(inner, target, f);
      SomeMeetsCons(e, NodesOf(inner), target, f);
    case _ =>
  }

  lemma {:induction false} NoneMeets(target: Err, f: Foreign)
    ensures !SomeMeets([], target, f)
  {
  }

  lemma {:induction false} MatchIsSearchOf(es: seq<Err>, target: Err, f: Foreign)
    ensures (exists c :: c in es && Is(c, target, f)) <==> SomeMeets(NodesOf(es), target, f)
    decreases es, 1
  {
    hide SomeMeets, Is, Meets;
    if es == [] {
      NoneMeets(target, f);
    } else {
      MatchIsSearch(es[0], target, f);
      MatchIsSearchOf(es[1..], target, f);
      SomeMeetsAppend(Nodes(es[0]), NodesOf(es[1..]), target, f);
      assert es[0] in es && forall c :: c in es <==> c == es[0] || c in es[1..];
    }
  }

  /** The first value that some function gives for the errors of a list. */
  function First(es: seq<Err>, get: Err -> Option<Err>): Option<Err> {
    if es == [] then None else if get(es[0]).Some? then get(es[0]) else First(es[1..], get)
  }

  lemma {:induction false} FirstAppend(a: seq<Err>, b: seq<Err>, get: Err -> Option<Err>)
    ensures First(a + b, get) == if First(a, get).Some? then First(a, get) else First(b, get)
  {
    if a == [] {
      assert a + b == b;
    } else {
      assert (a + b)[1..] == a[1..] + b;
      FirstAppend(a[1..], b, get);
    }
  }

  lemma {:induction false} FirstCons(e: Err, rest: seq<Err>, get: Err -> Option<Err>)
    ensures First([e] + rest, get) == if get(e).Some? then get(e) else First(rest, get)
    ensures First([e], get) == get(e)
  {
    assert ([e] + rest)[1..] == rest && [e] + [] == [e];
  }

  function ApiOf(f: Foreign): Err -> Option<Err> {
    (e: Err) => if e.Api? then Some(e) else f.AsApi(e)
  }

  function OperationOf(f: Foreign): Err -> Option<Err> {
    (e: Err) => if e.Operation? then Some(e) else f.AsOperation(e)
  }

  /** The API error found is the first one of the tree. */
  lemma {:induction false} FoundApiIsFirst(e: Err, f: Foreign)
    ensures FindApi(e, f) == First(Nodes(e), ApiOf(f))
    decreases e, 0
  {
    hide First;
    FirstCons(e, [], ApiOf(f));
    match e
    case Operation(_, _, _, inner) =>
      FoundApiIsFirstOf(inner, f);
      FirstCons(e, NodesOf(inner), ApiOf(f));
    case Wrap(_, _, inner) =>
      FoundApiIsFirstOf(inner, f);
      FirstCons(e, NodesOf(inner), ApiOf(f));
    case Other(_, _, inner) =>
      FoundApiIsFirstOf(inner, f);
      FirstCons(e, NodesOf(inner), ApiOf(f));
    case _ =>
  }

  lemma {:induction false} FoundApiIsFirstOf(es: seq<Err>, f: Foreign)
    ensures FindFirstApi(es, f) == First(NodesOf(es), ApiOf(f))
    decreases es, 1
  {
    hide FindApi, ApiOf;
    if es != [] {
      FoundApiIsFirst(es[0], f);
      FoundApiIsFirstOf(es[1..], f);
      FirstAppend(Nodes(es[0]), NodesOf(es[1..]), ApiOf(f));
    }
  }

  /** And so is the operation error. */
  lemma {:induction false} FoundOperationIsFirst(e: Err, f: Foreign)
    ensures FindOperation(e, f) == First(Nodes(e), OperationOf(f))
    decreases e, 0
  {
    hide First;
    FirstCons(e, [], OperationOf(f));
    match e
    case Operation(_, _, _, inner) => FirstCons(e, NodesOf(inner), OperationOf(f));
    case Wrap(_, _, inner) =>
      FoundOperationIsFirstOf(inner, f);
      FirstCons(e, NodesOf(inner), OperationOf(f));
    case Other(_, _, inner) =>
      FoundOperationIsFirstOf(inner, f);
      FirstCons(e, NodesOf(inner), OperationOf(f));
    case _ =>
  }

  lemma {:induction false} FoundOperationIsFirstOf(es: seq<Err>, f: Foreign)
    ensures FindFirstOperation(es, f) == First(NodesOf(es), OperationOf(f))
    decreases es, 1
  {
    hide FindOperation, OperationOf;
    if es != [] {
      FoundOperationIsFirst(es[0], f);
      FoundOperationIsFirstOf(es[1..], f);
      FirstAppend(Nodes(es[0]), NodesOf(es[1..]), OperationOf(f));
    }
  }

  /** Translation by the first API error of the tree: its status or its code says which sentinel is added. */
  lemma {:induction false} TranslationByAnswer(e: Err, id: nat, f: Foreign)
    ensures MapStoreError(None, id, f) == None
    ensures var mapped := MapStoreError(Some(e), id, f);
            match First(Nodes(e), ApiOf(f))
            case Some(Api(_, status, code, _)) =>
              if status == 404 || code == "not_found" then mapped == Some(Both(id, ERR_NOT_FOUND, e))
              else if status == 422 || code == "preset_lifecycle" then mapped == Some(Both(id, ERR_PRESET_LIFECYCLE, e))
              else mapped == Some(e)
            case _ => mapped == Some(e)
  {
    hide FindApi, First, Nodes;
    FoundApiIsFirst(e, f);
  }

  ghost predicate PartAt(s: string, part: string, i: int) {
    0 <= i <= |s| - |part| && s[i..i + |part|] == part
  }

  lemma {:induction false} ContainsPart(s: string, part: string)
    ensures Contains(s, part) <==> exists i :: PartAt(s, part, i)
  {
    if Contains(s, part) {
      var i :| 0 <= i <= |s| && part <= s[i..];
      assert s[i..i + |part|] == s[i..][..|part|] == part;
      assert PartAt(s, part, i);
    }
    if exists i :: PartAt(s, part, i) {
      var i :| PartAt(s, part, i);
      assert s[i..][..|part|] == part;
    }
  }

  /**
   * What counts as unreachable: a refused connection or a missing socket in the tree, a first operation
   * error that is a dial, or a text that says so.
   */
  lemma {:induction false} UnreachableExactly(e: Err, f: Foreign)
    ensures IsUnreachable(e, f) <==>
            || SomeMeets(Nodes(e), CONNECTION_REFUSED, f)
            || SomeMeets(Nodes(e), NO_ENTRY, f)
            || (match First(Nodes(e), OperationOf(f))
                case Some(Operation(_, op, _, _)) => op == "dial"
                case _ => false)
            || (exists i :: PartAt(e.text, "connection refused", i))
            || (exists i :: PartAt(e.text, "no such file or directory", i))
  {
    hide Is, SomeMeets, Nodes, First, FindOperation, Contains, PartAt;
    MatchIsSearch(e, CONNECTION_REFUSED, f);
    MatchIsSearch(e, NO_ENTRY, f);
    FoundOperationIsFirst(e, f);
    ContainsPart(e.text, "connection refused");
    ContainsPart(e.text, "no such file or directory");
  }
}
