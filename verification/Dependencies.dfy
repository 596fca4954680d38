/** Sending the classes a class refers to: a recursive walk over a possibly cyclic reference graph that the
    two class caches keep finite. Requests are taken as whole calls, which module Conversation justifies. */
module Dependencies {
  import opened Conversation
  import opened Wrappers

  /** `code` holds, by name with slashes, the class files the application's loader can produce; `refs` lists
      the classes a class file refers to. */
  datatype World = World(env: Env, code: map<string, string>, refs: string -> seq<string>)

  predicate InIgnoredPackage(name: string) {
    "java/" <= name || "sun/" <= name
  }

  /** Empty when no byte code can be obtained. */
  function CodeOf(w: World, name: string): string {
    if ToSlashes(name) in w.code then w.code[ToSlashes(name)] else []
  }

  /** A class the walk has to send: it matters, the server lacks it, and its byte code can be had. */
  predicate Fetchable(w: World, s: ServerStore, name: string) {
    !InIgnoredPackage(name) && !HasClass(w.env, s, ToDots(name)) && CodeOf(w, name) != []
  }

  predicate AllSettled(w: World, s: ServerStore, code: string) {
    forall r :: r in w.refs(code) ==> !Fetchable(w, s, r)
  }

  /** A chain of references from a class file, every class on it fetchable. */
  predicate IsPath(w: World, s: ServerStore, code: string, path: seq<string>)
    decreases |path|
  {
    && path != []
    && path[0] in w.refs(code) && Fetchable(w, s, path[0])
    && (|path| > 1 ==> IsPath(w, s, CodeOf(w, path[0]), path[1..]))
  }

  ghost predicate Reachable(w: World, s: ServerStore, code: string, name: string) {
    exists path :: IsPath(w, s, code, path) && path[|path| - 1] == name
  }

  /** What the server lacks and can still be sent. */
  function Missing(w: World, s: ServerStore): set<string> {
    set n | n in w.code && w.code[n] != [] && !HasClass(w.env, s, ToDots(n)) :: ToDots(n)
  }

  predicate Grows(s: ServerStore, t: ServerStore) {
    t.byteCodeCache == s.byteCodeCache && t.sentInterceptors == s.sentInterceptors
    && s.registered.Keys <= t.registered.Keys && forall n :: n in s.registered ==> t.registered[n] == s.registered[n]
  }

  /** The server after the classes have been sent one after the other. */
  function SendAll(w: World, s: ServerStore, names: seq<string>): ServerStore
    decreases |names|
  {
    if names == [] then s else SendAll(w, RegisterByteCode(s, ToDots(names[0]), CodeOf(w, names[0])), names[1..])
  }

  /** Each class was still lacking, and its byte code to be had, when its turn came: so each is sent once. */
  predicate EachNeeded(w: World, s: ServerStore, names: seq<string>)
    decreases |names|
  {
    names == [] || (Fetchable(w, s, names[0])
      && EachNeeded(w, RegisterByteCode(s, ToDots(names[0]), CodeOf(w, names[0])), names[1..]))
  }

  predicate SentOnce(w: World, s: ServerStore, t: ServerStore, names: seq<string>) {
    EachNeeded(w, s, names) && t == SendAll(w, s, names)
  }

  lemma DotsOfSlashes(name: string)
    ensures ToDots(ToSlashes(name)) == ToDots(name)
  {
  }

  lemma SlashesOfDots(a: string, b: string)
    requires ToDots(a) == ToDots(b)
    ensures ToSlashes(a) == ToSlashes(b)
  {
    forall i | 0 <= i < |a| ensures ToSlashes(a)[i] == ToSlashes(b)[i] {
      assert ToDots(a)[i] == ToDots(b)[i];
    }
  }

  lemma SendingShrinks(w: World, s: ServerStore, name: string)
    requires Fetchable(w, s, name)
    ensures Missing(w, RegisterByteCode(s, ToDots(name), CodeOf(w, name))) < Missing(w, s)
  {
    var t := RegisterByteCode(s, ToDots(name), CodeOf(w, name));
    DotsOfSlashes(name);
    assert ToDots(name) in Missing(w, s) && ToDots(name) !in Missing(w, t);
  }

  lemma GrowingShrinks(w: World, s: ServerStore, t: ServerStore)
    requires Grows(s, t)
    ensures Missing(w, t) <= Missing(w, s)
    ensures forall n :: Fetchable(w, t, n) ==> Fetchable(w, s, n)
  {
  }

  lemma {:induction false} PathBefore(w: World, s: ServerStore, t: ServerStore, code: string, path: seq<string>)
    requires Grows(s, t) && IsPath(w, t, code, path)
    ensures IsPath(w, s, code, path)
    decreases |path|
  {
    GrowingShrinks(w, s, t);
    if |path| <= 1 {
    } else {
      PathBefore(w, s, t, CodeOf(w, path[0]), path[1..]);
    }
  }

  /** What is reachable from a referenced class is reachable from the class that refers to it. */
  lemma ReachThrough(w: World, s: ServerStore, t: ServerStore, code: string, ref: string, n: string)
    requires Grows(s, t) && ref in w.refs(code) && Fetchable(w, s, ref)
    requires n == ref || Reachable(w, t, CodeOf(w, ref), n)
    ensures Reachable(w, s, code, n)
  {
    if n == ref {
      assert IsPath(w, s, code, [ref]);
    } else {
      var path :| IsPath(w, t, CodeOf(w, ref), path) && path[|path| - 1] == n;
      PathBefore(w, s, t, CodeOf(w, ref), path);
      assert ([ref] + path)[1..] == path;
      assert IsPath(w, s, code, [ref] + path);
    }
  }

  lemma {:induction false} SentOnceTransitive(w: World, s: ServerStore, t: ServerStore, u: ServerStore,
        xs: seq<string>, ys: seq<string>)
    requires SentOnce(w, s, t, xs) && SentOnce(w, t, u, ys)
    ensures SentOnce(w, s, u, xs + ys)
    decreases |xs|
  {
    if xs == [] {
      assert xs + ys == ys;
    } else {
      assert (xs + ys)[1..] == xs[1..] + ys;
      SentOnceTransitive(w, RegisterByteCode(s, ToDots(xs[0]), CodeOf(w, xs[0])), t, u, xs[1..], ys);
    }
  }

  lemma {:induction false} SentOnceGrows(w: World, s: ServerStore, t: ServerStore, names: seq<string>)
    requires SentOnce(w, s, t, names)
    ensures Grows(s, t)
    decreases |names|
  {
    if names == [] {
    } else {
      SentOnceGrows(w, RegisterByteCode(s, ToDots(names[0]), CodeOf(w, names[0])), t, names[1..]);
    }
  }

  /** No class is sent twice, whatever way its name is written, and none that the server had. */
  lemma {:induction false} SentOnceIsDistinct(w: World, s: ServerStore, t: ServerStore, names: seq<string>)
    requires SentOnce(w, s, t, names)
    ensures forall i :: 0 <= i < |names| ==> Fetchable(w, s, names[i])
    ensures forall i, j :: 0 <= i < j < |names| ==> ToDots(names[i]) != ToDots(names[j])
    decreases |names|
  {
    if names == [] {
    } else {
      var r := RegisterByteCode(s, ToDots(names[0]), CodeOf(w, names[0]));
      SentOnceIsDistinct(w, r, t, names[1..]);
      assert forall i :: 1 <= i < |names| ==> names[i] == names[1..][i - 1];
    }
  }

  /** The server has new byte code only for the classes sent. */
  lemma {:induction false} NewMeansSent(w: World, s: ServerStore, t: ServerStore, names: seq<string>, dots: string)
    returns (i: nat)
    requires SentOnce(w, s, t, names) && HasClass(w.env, t, dots) && !HasClass(w.env, s, dots)
    ensures i < |names| && ToDots(names[i]) == dots
    decreases |names|
  {
    if dots == ToDots(names[0]) {
      i := 0;
    } else {
      var j := NewMeansSent(w, RegisterByteCode(s, ToDots(names[0]), CodeOf(w, names[0])), t, names[1..], dots);
      i := j + 1;
    }
  }

  /** What a walk has achieved that sent the classes in `names` and took the server from s to t. */
  ghost predicate Progress(w: World, s: ServerStore, t: ServerStore, names: seq<string>, code: string) {
    && SentOnce(w, s, t, names)
    && (forall n :: n in names ==> Reachable(w, s, code, n) && AllSettled(w, t, CodeOf(w, n)))
  }

  /** What has been sent for a class the server lacked: nothing if its byte code cannot be had, otherwise
      the class and what the walk over its own references sent. */
  ghost predicate Descended(w: World, s: ServerStore, t: ServerStore, ref: string, more: seq<string>) {
    if CodeOf(w, ref) == [] then more == [] && t == s
    else
      && more != [] && more[0] == ref
      && Progress(w, RegisterByteCode(s, ToDots(ref), CodeOf(w, ref)), t, more[1..], CodeOf(w, ref))
      && AllSettled(w, t, CodeOf(w, ref))
  }

  ghost function OneAndDeeper(w: World, s: ServerStore, t: ServerStore, had: seq<string>, ref: string,
        deeper: seq<string>): (more: seq<string>)
    requires CodeOf(w, ref) != [] && AllSettled(w, t, CodeOf(w, ref))
    requires Progress(w, RegisterByteCode(s, ToDots(ref), CodeOf(w, ref)), t, deeper, CodeOf(w, ref))
    ensures Descended(w, s, t, ref, more)
    ensures (had + [ref]) + deeper == had + more
  {
    assert ([ref] + deeper)[1..] == deeper;
    [ref] + deeper
  }

  ghost predicate SettledUpTo(w: World, s: ServerStore, refs: seq<string>, i: nat) {
    forall k :: 0 <= k < i && k < |refs| ==> !Fetchable(w, s, refs[k])
  }

  lemma SettledStays(w: World, s: ServerStore, t: ServerStore, refs: seq<string>, i: nat)
    requires SettledUpTo(w, s, refs, i) && Grows(s, t)
    ensures SettledUpTo(w, t, refs, i)
  {
  }

  lemma SettledMore(w: World, s: ServerStore, refs: seq<string>, i: nat)
    requires i < |refs| && SettledUpTo(w, s, refs, i) && !Fetchable(w, s, refs[i])
    ensures SettledUpTo(w, s, refs, i + 1)
  {
  }

  lemma SettledIsAll(w: World, s: ServerStore, code: string)
    requires SettledUpTo(w, s, w.refs(code), |w.refs(code)|)
    ensures AllSettled(w, s, code)
  {
  }

  lemma IgnoredIsSettled(w: World, s: ServerStore, ref: string)
    ensures InIgnoredPackage(ref) ==> !Fetchable(w, s, ref)
  {
  }

  lemma NothingSent(w: World, s: ServerStore, code: string)
    ensures Progress(w, s, s, [], code) && Grows(s, s) && SettledUpTo(w, s, w.refs(code), 0)
  {
  }

  lemma GrowsTransitive(s: ServerStore, t: ServerStore, u: ServerStore)
    requires Grows(s, t) && Grows(t, u)
    ensures Grows(s, u)
  {
  }

  ghost function Append(first: seq<string>, had: seq<string>, names: seq<string>, more: seq<string>): (r: seq<string>)
    requires had == first + names
    ensures r == names + more && had + more == first + r
  {
    names + more
  }

  lemma SettledUnder(w: World, t: ServerStore, u: ServerStore, names: seq<string>)
    requires Grows(t, u) && forall n :: n in names ==> AllSettled(w, t, CodeOf(w, n))
    ensures forall n :: n in names ==> AllSettled(w, u, CodeOf(w, n))
  {
    GrowingShrinks(w, t, u);
  }

  lemma ReachBelow(w: World, s: ServerStore, t: ServerStore, code: string, ref: string, more: seq<string>)
    requires Grows(s, t) && ref in w.refs(code) && Fetchable(w, s, ref) && more != [] && more[0] == ref
    requires forall n :: n in more[1..] ==> Reachable(w, t, CodeOf(w, ref), n)
    ensures forall n :: n in more ==> Reachable(w, s, code, n)
  {
    forall n | n in more ensures Reachable(w, s, code, n) {
      ReachThrough(w, s, t, code, ref, n);
    }
  }

  /** The classes sent before a reference, and those sent for it. */
  lemma CombineProgress(w: World, s: ServerStore, t: ServerStore, u: ServerStore, code: string, ref: string,
        names: seq<string>, more: seq<string>)
    requires Progress(w, s, t, names, code) && Descended(w, t, u, ref, more)
    requires ref in w.refs(code) && !InIgnoredPackage(ref) && !HasClass(w.env, t, ToDots(ref))
    ensures Progress(w, s, u, names + more, code) && Grows(t, u) && !Fetchable(w, u, ref)
  {
    if more == [] {
      assert names + more == names;
    } else {
      var mid := RegisterByteCode(t, ToDots(ref), CodeOf(w, ref));
      SentOnceGrows(w, s, t, names);
      SentOnceGrows(w, t, u, more);
      SentOnceTransitive(w, s, t, u, names, more);
      GrowingShrinks(w, s, t);
      SettledUnder(w, t, u, names);
      SentOnceGrows(w, mid, u, more[1..]);
      ReachBelow(w, s, mid, code, ref, more);
    }
  }

  class DependencyLoader {
    const world: World
    var instrumentorClassesCache: set<string>
    var server: ServerStore   // the server, once it has read everything it was sent
    var sent: seq<string>     // the classes sent, in order

    ghost predicate Valid()
      reads this
    {
      forall n :: n in instrumentorClassesCache ==> HasClass(world.env, server, ToDots(n))
    }

    constructor (world: World)
      ensures this.world == world && Valid()
      ensures server == ServerStore(map[], map[], []) && instrumentorClassesCache == {} && sent == []
    {
      this.world := world;
      server := ServerStore(map[], map[], []);
      instrumentorClassesCache, sent := {}, [];
    }

    method IsClassOnInstrumentor(name: string) returns (yes: bool)
      requires Valid()
      modifies this`instrumentorClassesCache
      ensures Valid()
      ensures yes <==> HasClass(world.env, server, ToDots(name))
      ensures instrumentorClassesCache == old(instrumentorClassesCache)
        || (yes && instrumentorClassesCache == old(instrumentorClassesCache) + {name})
    {
      DotsOfSlashes(name);
      if ToSlashes(name) in instrumentorClassesCache {
        return true;
      }
      yes := HasClass(world.env, server, ToDots(name));
      if yes {
        instrumentorClassesCache := instrumentorClassesCache + {name};
      }
    }

    method SendClassData(name: string, code: string)
      requires Valid()
      modifies this
      ensures Valid()
      ensures server == RegisterByteCode(old(server), ToDots(name), code)
      ensures instrumentorClassesCache == old(instrumentorClassesCache) + {name}
      ensures sent == old(sent) + [name]
    {
      server := RegisterByteCode(server, ToDots(name), code);
      instrumentorClassesCache := instrumentorClassesCache + {name};
      sent := sent + [name];
    }

    /** The byte code that was sent, or nothing. */
    method SendReferencedClass(name: string) returns (code: string)
      requires Valid()
      modifies this
      ensures Valid() && code == CodeOf(world, name)
      ensures server == if code == [] then old(server) else RegisterByteCode(old(server), ToDots(name), code)
      ensures sent == if code == [] then old(sent) else old(sent) + [name]
    {
      code := CodeOf(world, name);
      if code != [] {
        SendClassData(name, code);
      }
    }

    /** On return no class that the root or a newly sent class refers to is left to send; `names` are the
        classes sent. */
    method LoadDependencies(className: string, code: string) returns (ghost names: seq<string>)
      requires Valid()
      modifies this
      ensures Valid() && sent == old(sent) + names
      ensures Progress(world, old(server), server, names, code)
      ensures AllSettled(world, server, code)
      decreases Missing(world, server)
    {
      hide Progress, Fetchable, SettledUpTo, AllSettled, HasClass, Missing, Grows;
      var allRefs := world.refs(code);
      names := [];
      NothingSent(world, server, code);
      for i := 0 to |allRefs|
        invariant Valid() && sent == old(sent) + names
        invariant Progress(world, old(server), server, names, code)
        invariant Grows(old(server), server)
        invariant SettledUpTo(world, server, allRefs, i)
      {
        IgnoredIsSettled(world, server, allRefs[i]);
        if !InIgnoredPackage(allRefs[i]) {
          ghost var before, had := server, sent;
          GrowingShrinks(world, old(server), server);
          ghost var more := LoadReference(allRefs[i], code, old(server), names);
          SettledStays(world, before, server, allRefs, i);
          GrowsTransitive(old(server), before, server);
          names := Append(old(sent), had, names, more);
        }
        SettledMore(world, server, allRefs, i);
      }
      SettledIsAll(world, server, code);
    }

    /** One reference: ask, and if need be send it and go on with the classes it refers to. */
    method LoadReference(ref: string, ghost code: string, ghost start: ServerStore, ghost names: seq<string>)
      returns (ghost more: seq<string>)
      requires Valid() && Progress(world, start, server, names, code)
      requires ref in world.refs(code) && !InIgnoredPackage(ref)
      modifies this
      ensures Valid() && sent == old(sent) + more
      ensures Progress(world, start, server, names + more, code)
      ensures Grows(old(server), server) && !Fetchable(world, server, ref)
      decreases Missing(world, server), 2
    {
      var known := IsClassOnInstrumentor(ref);
      if known {
        more := [];
        assert names + more == names;
      } else {
        more := LoadUnknown(ref);
        CombineProgress(world, start, old(server), server, code, ref, names, more);
      }
    }

    /** A class the server lacks. */
    method LoadUnknown(ref: string) returns (ghost more: seq<string>)
      requires Valid() && !HasClass(world.env, server, ToDots(ref)) && !InIgnoredPackage(ref)
      modifies this
      ensures Valid() && sent == old(sent) + more
      ensures Descended(world, old(server), server, ref, more)
      decreases Missing(world, server), 1
    {
      var bytes := SendReferencedClass(ref);
      if bytes == [] {
        more := [];
      } else {
        SendingShrinks(world, old(server), ref);
        ghost var deeper := LoadDependencies(ref, bytes);
        more := OneAndDeeper(world, old(server), server, old(sent), ref, deeper);
      }
    }
  }

  lemma {:induction false} PathIsSent(w: World, s: ServerStore, t: ServerStore, code: string, path: seq<string>,
        names: seq<string>)
    requires SentOnce(w, s, t, names) && AllSettled(w, t, code) && IsPath(w, s, code, path)
    requires forall m :: m in names ==> AllSettled(w, t, CodeOf(w, m))
    ensures exists i :: 0 <= i < |names| && ToDots(names[i]) == ToDots(path[|path| - 1])
    decreases |path|
  {
    var first := path[0];
    var i := NewMeansSent(w, s, t, names, ToDots(first));
    if |path| <= 1 {
    } else {
      SlashesOfDots(names[i], first);
      assert names[i] in names;
      PathIsSent(w, s, t, CodeOf(w, first), path[1..], names);
    }
  }

  /** What the contract of LoadDependencies comes to: the classes sent are exactly the classes that can be
      reached from the root by references through classes the server lacked. */
  lemma SentExactlyWhatIsReachable(w: World, s: ServerStore, t: ServerStore, code: string, names: seq<string>,
        n: string)
    requires Progress(w, s, t, names, code) && AllSettled(w, t, code)
    ensures Reachable(w, s, code, n) ==> exists i :: 0 <= i < |names| && ToDots(names[i]) == ToDots(n)
    ensures n in names ==> Reachable(w, s, code, n)
  {
    if Reachable(w, s, code, n) {
      var path :| IsPath(w, s, code, path) && path[|path| - 1] == n;
      PathIsSent(w, s, t, code, path, names);
    }
  }

  /** The first class sent. */
  lemma FirstArrives(w: World, s: ServerStore, t: ServerStore, names: seq<string>)
    requires SentOnce(w, s, t, names) && names != []
    ensures var (dots, r) := (ToDots(names[0]), RegisterByteCode(s, ToDots(names[0]), CodeOf(w, names[0])));
      && ToSlashes(names[0]) in w.code && SentOnce(w, r, t, names[1..])
      && dots !in s.registered && r.registered == s.registered[dots := w.code[ToSlashes(names[0])]]
  {
  }

  lemma {:induction false} SentAreRegistered(w: World, s: ServerStore, t: ServerStore, names: seq<string>)
    requires SentOnce(w, s, t, names)
    ensures t.registered.Keys == s.registered.Keys + set n | n in names :: ToDots(n)
    ensures forall d :: d in s.registered ==> t.registered[d] == s.registered[d]
    decreases |names|
  {
    if names == [] {
    } else {
      hide SentOnce, RegisterByteCode, CodeOf, ToDots, ToSlashes;
      var r := RegisterByteCode(s, ToDots(names[0]), CodeOf(w, names[0]));
      FirstArrives(w, s, t, names);
      SentAreRegistered(w, r, t, names[1..]);
      assert (set n | n in names :: ToDots(n)) == {ToDots(names[0])} + set n | n in names[1..] :: ToDots(n);
    }
  }

  /** What the walk brought to the server: for each class sent the byte code that could be had of it, and for
      every other class what was registered before. */
  lemma {:induction false} SentCodeArrives(w: World, s: ServerStore, t: ServerStore, names: seq<string>)
    requires SentOnce(w, s, t, names)
    ensures t.registered.Keys == s.registered.Keys + set n | n in names :: ToDots(n)
    ensures forall i :: 0 <= i < |names| ==>
      ToSlashes(names[i]) in w.code && t.registered[ToDots(names[i])] == w.code[ToSlashes(names[i])]
    ensures forall d :: d in s.registered ==> t.registered[d] == s.registered[d]
    decreases |names|
  {
    SentAreRegistered(w, s, t, names);
    if names == [] {
    } else {
      hide SentOnce, RegisterByteCode, CodeOf, ToDots, ToSlashes;
      var r := RegisterByteCode(s, ToDots(names[0]), CodeOf(w, names[0]));
      FirstArrives(w, s, t, names);
      SentCodeArrives(w, r, t, names[1..]);
      forall i | 0 <= i < |names| ensures ToSlashes(names[i]) in w.code
        && t.registered[ToDots(names[i])] == w.code[ToSlashes(names[i])]
      {
        if i == 0 {
          assert ToDots(names[0]) in r.registered;
        } else {
          assert names[i] == names[1..][i - 1];
        }
      }
    }
  }

  /** No class of the Java library is ever sent. */
  lemma NoLibraryClassIsSent(w: World, s: ServerStore, t: ServerStore, names: seq<string>, i: nat)
    requires SentOnce(w, s, t, names) && i < |names|
    ensures var n := names[i];
      && !(|n| >= 5 && n[0] == 'j' && n[1] == 'a' && n[2] == 'v' && n[3] == 'a' && n[4] == '/')
      && !(|n| >= 4 && n[0] == 's' && n[1] == 'u' && n[2] == 'n' && n[3] == '/')
  {
    SentOnceIsDistinct(w, s, t, names);
    var n := names[i];
    assert Fetchable(w, s, n);
    assert !("java/" <= n) && !("sun/" <= n);
  }
}
