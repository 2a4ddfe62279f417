/** flattenValue (httputil/negotiate.go): a value tree as a map from dotted paths to
    texts, and the lookup by path that it must agree with. */
module Flatten {
  import opened Options
  import opened Strings

  /** A reflected value. Structs and maps are records of their exported fields and
      their entries; `shown` is what fmt prints for the value, or its JSON. */
  datatype Value =
    | Nil                                        // a nil pointer or interface
    | Ref(to: Value, shown: string)              // a pointer or interface that is not nil
    | Record(members: seq<(string, Value)>)
    | Empty                                      // an empty slice or array
    | List(shown: string)
    | Unencodable                                // a slice that JSON refuses
    | Scalar(shown: string)

  function ChildKey(prefix: string, name: string): string {
    if prefix != "" then prefix + "." + name else name
  }

  function LeafKey(prefix: string): string {
    if prefix == "" then "value" else prefix
  }

  /** The value behind one pointer or interface; a second one is printed. */
  function Deref(v: Value): Value {
    if v.Ref? then v.to else v
  }

  // ----- What the code computes -----

  function Flat(prefix: string, v: Value): map<string, string>
    decreases v, 1, 0
  {
    if v.Nil? then (if prefix != "" then map[prefix := ""] else map[])
    else if v.Ref? && v.to.Record? then FlatMembers(prefix, v.to, |v.to.members|)
    else if v.Record? then FlatMembers(prefix, v, |v.members|)
    else
      match Deref(v)
      case Empty => if prefix != "" then map[prefix := "[]"] else map[]
      case Unencodable => map[]
      case Nil => map[LeafKey(prefix) := "<nil>"]
      case Ref(_, shown) => map[LeafKey(prefix) := shown]
      case List(shown) => map[LeafKey(prefix) := shown]
      case Scalar(shown) => map[LeafKey(prefix) := shown]
  }

  /** The first n members; later ones overwrite earlier ones. */
  function FlatMembers(prefix: string, r: Value, n: nat): map<string, string>
    requires r.Record? && n <= |r.members|
    decreases r, 0, n
  {
    if n == 0 then map[]
    else
      var (name, v) := r.members[n - 1];
      FlatMembers(prefix, r, n - 1) + Flat(ChildKey(prefix, name), v)
  }

  method FlattenValue(prefix: string, v: Value) returns (result: map<string, string>)
    ensures result == Flat(prefix, v)
    decreases v
  {
    result := map[];
    if v.Nil? {
      if prefix != "" {
        result := result[prefix := ""];
      }
      return;
    }
    var w := Deref(v);
    match w {
      case Record(members) =>
        for i := 0 to |members|
          invariant result == FlatMembers(prefix, w, i)
        {
          var (name, child) := members[i];
          var key := name;
          if prefix != "" {
            key := prefix + "." + name;
          }
          var sub := FlattenValue(key, child);
          result := result + sub;
        }
      case Empty =>
        if prefix != "" {
          result := result[prefix := "[]"];
        }
      case Unencodable =>
      case Nil => result := result[LeafKey(prefix) := "<nil>"];
      case Ref(_, shown) => result := result[LeafKey(prefix) := shown];
      case List(shown) => result := result[LeafKey(prefix) := shown];
      case Scalar(shown) => result := result[LeafKey(prefix) := shown];
    }
  }

  /** The text of everything that is no record. A pointer or interface is looked through
      once and shows what it points to; behind it a second one shows its printed form and
      a nil "<nil>", which stands for itself as "", or as nothing where it has no name. */
  lemma TextsExactly(prefix: string, w: Value, shown: string, inner: string)
    ensures !w.Nil? && !w.Ref? ==> Flat(prefix, Ref(w, shown)) == Flat(prefix, w)
    ensures var key := if prefix == "" then "value" else prefix;
            && Flat(prefix, Scalar(shown)) == map[key := shown]
            && Flat(prefix, List(shown)) == map[key := shown]
            && Flat(prefix, Ref(Ref(w, inner), shown)) == map[key := inner]
            && Flat(prefix, Ref(Nil, shown)) == map[key := "<nil>"]
    ensures Flat(prefix, Nil) == if prefix == "" then map[] else map[prefix := ""]
    ensures Flat(prefix, Empty) == if prefix == "" then map[] else map[prefix := "[]"]
    ensures Flat(prefix, Unencodable) == map[]
  {
    hide FlatMembers;
  }

  // ----- Looking a path up -----

  /** The last of the first n members of that name. */
  function Lookup(ms: seq<(string, Value)>, n: nat, name: string): Option<Value>
    requires n <= |ms|
  {
    if n == 0 then None
    else if ms[n - 1].0 == name then Some(ms[n - 1].1)
    else Lookup(ms, n - 1, name)
  }

  /** The members of a record, or of one behind a pointer or interface. */
  function Members(v: Value): (ms: seq<(string, Value)>)
    ensures forall i | 0 <= i < |ms| :: ms[i].1 < v
  {
    match v
    case Record(ms) => ms
    case Ref(Record(ms), _) => ms
    case _ => []
  }

  function Child(v: Value, name: string): Option<Value> {
    Lookup(Members(v), |Members(v)|, name)
  }

  function At(v: Value, path: seq<string>): Option<Value>
    decreases |path|
  {
    if path == [] then Some(v)
    else
      var child := Child(v, path[0]);
      if child.None? then None else At(child.value, path[1..])
  }

  /** The text a leaf is shown with, None for a record, for what JSON refuses, and for
      a nil or an empty list that has no name. A pointer or interface is looked through
      once: a nil behind it is "<nil>", a second one is printed. */
  function Shown(v: Value, named: bool): Option<string> {
    match v
    case Nil => if named then Some("") else None
    case Empty => if named then Some("[]") else None
    case Ref(Empty, _) => if named then Some("[]") else None
    case List(shown) => Some(shown)
    case Ref(List(shown), _) => Some(shown)
    case Scalar(shown) => Some(shown)
    case Ref(Scalar(shown), _) => Some(shown)
    case Ref(Nil, _) => Some("<nil>")
    case Ref(Ref(_, shown), _) => Some(shown)
    case Record(_) => None
    case Ref(Record(_), _) => None
    case Unencodable => None
    case Ref(Unencodable, _) => None
  }

  predicate LeafAt(v: Value, path: seq<string>, text: string) {
    At(v, path).Some? && Shown(At(v, path).value, path != []) == Some(text)
  }

  function Dotted(path: seq<string>): string {
    if path == [] then "value" else Join(path, ".")
  }

  /** Sibling names are distinct and none is empty. */
  predicate Proper(v: Value) {
    var ms := Members(v);
    && (forall i, j | 0 <= i < j < |ms| :: ms[i].0 != ms[j].0)
    && (forall i | 0 <= i < |ms| :: ms[i].0 != "" && Proper(ms[i].1))
  }

  /** No name holds a dot. */
  predicate DotFree(v: Value) {
    var ms := Members(v);
    forall i | 0 <= i < |ms| :: '.' !in ms[i].0 && DotFree(ms[i].1)
  }

  // ----- The keys are the dotted paths of the leaves -----

  predicate Names(path: seq<string>) {
    forall n | n in path :: n != ""
  }

  lemma PrefixOf(at: seq<string>, name: string)
    requires Names(at)
    ensures ChildKey(Join(at, "."), name) == Join(at + [name], ".")
    ensures Join(at, ".") == "" <==> at == []
  {
    JoinAppend(at, name, ".");
    if at != [] {
      assert at[0] in at;
    }
  }

  /** Every leaf of v, which stands at path `at`, has an entry under its dotted path. */
  lemma {:induction false} LeafIsFlat(at: seq<string>, v: Value, path: seq<string>)
    requires Names(at) && Proper(v) && At(v, path).Some?
    requires Shown(At(v, path).value, at + path != []).Some?
    ensures Names(at + path) && Dotted(at + path) in Flat(Join(at, "."), v)
    decreases v, 1, 0
  {
    PrefixOf(at, "");
    if path == [] {
      assert at + path == at;
    } else {
      MemberIsFlat(at, Deref(v), |Deref(v).members|, path);
    }
  }

  lemma {:induction false} MemberIsFlat(at: seq<string>, r: Value, n: nat, path: seq<string>)
    requires Names(at) && r.Record? && Proper(r) && path != [] && n <= |r.members|
    requires Lookup(r.members, n, path[0]).Some? && At(Lookup(r.members, n, path[0]).value, path[1..]).Some?
    requires Shown(At(Lookup(r.members, n, path[0]).value, path[1..]).value, true).Some?
    ensures Names(at + path) && Dotted(at + path) in FlatMembers(Join(at, "."), r, n)
    decreases r, 0, n
  {
    hide Flat, Join, Shown, At;
    var (name, child) := r.members[n - 1];
    PrefixOf(at, name);
    if name == path[0] {
      assert at + path == at + [name] + path[1..];
      LeafIsFlat(at + [name], child, path[1..]);
    } else {
      MemberIsFlat(at, r, n - 1, path);
    }
  }

  lemma EntryOfLeaf(prefix: string, v: Value, key: string)
    requires !Deref(v).Record? && key in Flat(prefix, v)
    ensures key == LeafKey(prefix) && Shown(v, prefix != "") == Some(Flat(prefix, v)[key])
  {
    hide FlatMembers;
  }

  lemma RecordMembers(v: Value, prefix: string)
    requires Deref(v).Record?
    ensures Members(v) == Deref(v).members && (Proper(v) <==> Proper(Deref(v)))
    ensures Flat(prefix, v) == FlatMembers(prefix, Deref(v), |Deref(v).members|)
  {
    hide FlatMembers;
    assert Members(v) == Members(Deref(v));
  }

  /** Every entry is the text of a leaf under its dotted path. */
  lemma {:induction false} FlatIsLeaf(at: seq<string>, v: Value, key: string) returns (path: seq<string>)
    requires Names(at) && Proper(v) && key in Flat(Join(at, "."), v)
    ensures Names(at + path) && key == Dotted(at + path) && At(v, path).Some?
    ensures Shown(At(v, path).value, at + path != []) == Some(Flat(Join(at, "."), v)[key])
    decreases v, 1, 0
  {
    hide Flat, FlatMembers, Shown, Proper, Members, Join;
    PrefixOf(at, "");
    if Deref(v).Record? {
      RecordMembers(v, Join(at, "."));
      path := FlatIsMember(at, Deref(v), |Deref(v).members|, key);
    } else {
      path := [];
      assert at + path == at;
      EntryOfLeaf(Join(at, "."), v, key);
    }
  }

  lemma {:induction false} FlatIsMember(at: seq<string>, r: Value, n: nat, key: string) returns (path: seq<string>)
    requires Names(at) && r.Record? && Proper(r) && n <= |r.members| && key in FlatMembers(Join(at, "."), r, n)
    ensures Names(at + path) && key == Dotted(at + path) && path != []
    ensures Lookup(r.members, n, path[0]).Some? && At(Lookup(r.members, n, path[0]).value, path[1..]).Some?
    ensures Shown(At(Lookup(r.members, n, path[0]).value, path[1..]).value, true)
         == Some(FlatMembers(Join(at, "."), r, n)[key])
    decreases r, 0, n
  {
    hide Flat, Join, Shown, At;
    var (name, child) := r.members[n - 1];
    PrefixOf(at, name);
    if key in Flat(Join(at + [name], "."), child) {
      var q := FlatIsLeaf(at + [name], child, key);
      path := [name] + q;
      assert at + path == at + [name] + q && path[1..] == q;
    } else {
      path := FlatIsMember(at, r, n - 1, key);
      LookupFinds(r.members, n - 1, path[0]);
    }
  }

  lemma {:induction false} LookupFinds(ms: seq<(string, Value)>, n: nat, name: string)
    requires n <= |ms| && Lookup(ms, n, name).Some?
    ensures exists i :: 0 <= i < n && ms[i] == (name, Lookup(ms, n, name).value)
  {
    if ms[n - 1].0 != name { LookupFinds(ms, n - 1, name); }
  }

  lemma NoNames()
    ensures Names([]) && Join([], ".") == ""
  {
  }

  /** The map's entries are the leaves' texts under their dotted paths. */
  lemma EntriesAreLeaves(v: Value)
    requires Proper(v)
    ensures forall path, text | LeafAt(v, path, text) :: Names(path) && Dotted(path) in Flat("", v)
    ensures forall key | key in Flat("", v) :: exists path :: LeafAt(v, path, Flat("", v)[key]) && key == Dotted(path)
  {
    hide Flat, Proper, At, Shown, Dotted, Names;
    NoNames();
    forall path, text | LeafAt(v, path, text)
      ensures Names(path) && Dotted(path) in Flat("", v)
    {
      assert [] + path == path;
      LeafIsFlat([], v, path);
    }
    forall key | key in Flat("", v)
      ensures exists path :: LeafAt(v, path, Flat("", v)[key]) && key == Dotted(path)
    {
      var path := FlatIsLeaf([], v, key);
      assert [] + path == path;
      assert LeafAt(v, path, Flat("", v)[key]);
    }
  }

  /** For names that are distinct among siblings and not empty, dots or no dots: every
      leaf's text stands under its dotted path, exactly when no two leaves with
      different texts share one. */
  lemma LeavesShownExactly(v: Value)
    requires Proper(v)
    ensures (forall path, text | LeafAt(v, path, text) ::
               Dotted(path) in Flat("", v) && Flat("", v)[Dotted(path)] == text)
       <==> (forall p, q, s, t | LeafAt(v, p, s) && LeafAt(v, q, t) && Dotted(p) == Dotted(q) :: s == t)
  {
    hide Flat, Proper, LeafAt, Dotted, Names;
    EntriesAreLeaves(v);
  }

  lemma DottedIsInjective(p: seq<string>, q: seq<string>)
    requires (forall n | n in p :: '.' !in n) && forall n | n in q :: '.' !in n
    requires p != [] && q != [] && Join(p, ".") == Join(q, ".")
    ensures p == q
  {
    hide SplitOn, Join;
    SplitJoin(p, '.');
    SplitJoin(q, '.');
  }

  lemma {:induction false} PathIsDotFree(v: Value, path: seq<string>)
    requires DotFree(v) && At(v, path).Some?
    ensures forall n | n in path :: '.' !in n
    decreases |path|
  {
    if path != [] {
      var ms := Deref(v).members;
      LookupFinds(ms, |ms|, path[0]);
      PathIsDotFree(Child(v, path[0]).value, path[1..]);
    }
  }

  lemma LeavesApart(v: Value, p: seq<string>, q: seq<string>, s: string, t: string)
    requires Proper(v) && DotFree(v) && LeafAt(v, p, s) && LeafAt(v, q, t) && Dotted(p) == Dotted(q)
    ensures p == q && s == t
  {
    PathIsDotFree(v, p);
    PathIsDotFree(v, q);
    if p != [] && q != [] {
      DottedIsInjective(p, q);
    }
  }

  /** When, besides, no name holds a dot, the map holds every leaf's text under its
      dotted path, nothing else, and no two leaves share a key. */
  lemma FlattenIsLeaves(v: Value)
    requires Proper(v) && DotFree(v)
    ensures forall path, text | LeafAt(v, path, text) ::
              Dotted(path) in Flat("", v) && Flat("", v)[Dotted(path)] == text
    ensures forall key | key in Flat("", v) :: exists path :: LeafAt(v, path, Flat("", v)[key]) && key == Dotted(path)
    ensures forall p, q, s, t | LeafAt(v, p, s) && LeafAt(v, q, t) && Dotted(p) == Dotted(q) :: p == q
  {
    hide Flat, Proper, DotFree, LeafAt, Dotted, Names;
    forall p, q, s, t | LeafAt(v, p, s) && LeafAt(v, q, t) && Dotted(p) == Dotted(q)
      ensures p == q && s == t
    {
      LeavesApart(v, p, q, s, t);
    }
    EntriesAreLeaves(v);
    LeavesShownExactly(v);
  }

  /** A dot in a name can make two leaves share a key; the later one wins. */
  lemma DottedNamesCollide(x: string, y: string)
    ensures var v := Record([("a.b", Scalar(x)), ("a", Record([("b", Scalar(y))]))]);
            LeafAt(v, ["a.b"], x) && LeafAt(v, ["a", "b"], y) && Flat("", v) == map["a.b" := y]
  {
    var inner := Record([("b", Scalar(y))]);
    var v := Record([("a.b", Scalar(x)), ("a", inner)]);
    assert ["a", "b"][1..] == ["b"] && ["b"][1..] == [] && ["a.b"][1..] == [];
    assert Lookup(v.members, 1, "a.b") == Some(Scalar(x));
    assert At(inner, ["b"]) == At(Scalar(y), []);
    assert FlatMembers("", v, 1) == FlatMembers("", v, 0) + map["a.b" := x];
    assert ChildKey("a", "b") == "a.b";
    assert FlatMembers("a", inner, 1) == FlatMembers("a", inner, 0) + Flat("a.b", Scalar(y));
    assert Flat("a", inner) == map["a.b" := y];
  }
}
