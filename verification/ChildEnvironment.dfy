/** A sidecar's environment, merged from four lists (internal/sidecar/env.go). */
module ChildEnvironment {
  /** An entry, name=value, as a process's environment lists it. */
  type Entry = string

  const ANFRA := "ANFRA_"
  const STRIPPED: set<string> := {
    "PPROF_ADDR", "OTEL_SERVICE_NAME", "OTEL_RESOURCE_ATTRIBUTES", "GOMEMLIMIT", "GOMAXPROCS", "GOGC", "NODE_OPTIONS"
  }

  /** What is before an entry's first = */
  function Name(kv: Entry): (n: string)
    ensures n <= kv && '=' !in n
  {
    if kv == "" || kv[0] == '=' then "" else [kv[0]] + Name(kv[1..])
  }

  /** What is after it */
  function Value(kv: Entry): string {
    var n := |Name(kv)|;
    if n < |kv| then kv[n + 1..] else ""
  }

  lemma {:induction false} NameOf(name: string, value: string)
    requires '=' !in name
    ensures Name(name + "=" + value) == name && Value(name + "=" + value) == value
  {
    var kv := name + "=" + value;
    if name == "" {
      assert kv[0] == '=';
    } else {
      NameOf(name[1..], value);
      assert kv[1..] == name[1..] + "=" + value && kv[0] == name[0];
      assert name == [name[0]] + name[1..];
    }
    assert kv[|name| + 1..] == value;
  }

  /** Each name's last entry. */
  function Last(env: seq<Entry>): map<string, Entry> {
    if env == [] then map[]
    else Last(env[..|env| - 1])[Name(env[|env| - 1]) := env[|env| - 1]]
  }

  /** The names, each once, where it first appears. */
  function Names(env: seq<Entry>): seq<string> {
    if env == [] then []
    else
      var before, name := Names(env[..|env| - 1]), Name(env[|env| - 1]);
      if name in before then before else before + [name]
  }

  lemma {:induction false} LastNamed(env: seq<Entry>)
    ensures forall n :: n in Last(env) <==> n in Names(env)
    ensures forall n | n in Last(env) :: Name(Last(env)[n]) == n
    ensures forall i, j | 0 <= i < j < |Names(env)| :: Names(env)[i] != Names(env)[j]
  {
    if env != [] { LastNamed(env[..|env| - 1]); }
  }

  /** A name's last entry is in the list, and names it, and none after it does. */
  lemma {:induction false} LastIsLast(env: seq<Entry>, n: string)
    requires n in Last(env)
    ensures exists a :: 0 <= a < |env| && env[a] == Last(env)[n] && Name(env[a]) == n && forall b | a < b < |env| :: Name(env[b]) != n
  {
    var kv := env[|env| - 1];
    if Name(kv) != n {
      var front := env[..|env| - 1];
      LastIsLast(front, n);
      var a :| 0 <= a < |front| && front[a] == Last(front)[n] && Name(front[a]) == n && forall b | a < b < |front| :: Name(front[b]) != n;
      assert env[a] == front[a] && forall b | a < b < |env| :: b == |env| - 1 || env[b] == front[b];
    }
  }

  /** The names are in the order in which they first appear. */
  lemma {:induction false} NamesAsTheyAppear(env: seq<Entry>, i: nat, j: nat)
    requires i < j < |Names(env)|
    ensures exists a :: 0 <= a < |env| && Name(env[a]) == Names(env)[i] && forall b | 0 <= b <= a :: Name(env[b]) != Names(env)[j]
  {
    var front, name := env[..|env| - 1], Name(env[|env| - 1]);
    LastNamed(env);
    if j < |Names(front)| {
      NamesAsTheyAppear(front, i, j);
      var a :| 0 <= a < |front| && Name(front[a]) == Names(front)[i] && forall b | 0 <= b <= a :: Name(front[b]) != Names(front)[j];
      assert forall b | 0 <= b <= a :: env[b] == front[b];
    } else {
      NamedSomewhere(front, Names(front)[i]);
      var a :| 0 <= a < |front| && Name(front[a]) == Names(front)[i];
      forall b | 0 <= b <= a ensures Name(env[b]) != name { assert env[b] == front[b]; NamedOnce(front, b); }
      assert env[a] == front[a];
    }
  }

  lemma {:induction false} NamedSomewhere(env: seq<Entry>, n: string)
    requires n in Names(env)
    ensures exists a :: 0 <= a < |env| && Name(env[a]) == n
  {
    var front := env[..|env| - 1];
    if n in Names(front) {
      NamedSomewhere(front, n);
      var a :| 0 <= a < |front| && Name(front[a]) == n;
      assert env[a] == front[a];
    }
  }

  lemma {:induction false} NamedOnce(env: seq<Entry>, b: nat)
    requires b < |env|
    ensures Name(env[b]) in Names(env)
  {
    if b < |env| - 1 { NamedOnce(env[..|env| - 1], b); }
  }

  /** Later lists win: each name's last entry in two lists, one after the other. */
  lemma {:induction false} LastConcat(a: seq<Entry>, b: seq<Entry>)
    ensures Last(a + b) == Last(a) + Last(b)
  {
    if b == [] {
      assert a + b == a;
    } else {
      assert (a + b)[..|a + b| - 1] == a + b[..|b| - 1];
      LastConcat(a, b[..|b| - 1]);
    }
  }

  /** These names' entries, in this order. */
  function Listed(last: map<string, Entry>, names: seq<string>): seq<Entry>
    requires forall n | n in names :: n in last
  {
    seq(|names|, i requires 0 <= i < |names| => last[names[i]])
  }

  /** One entry a name: where the name first is, what is last given for it. */
  method LastWins(env: seq<Entry>) returns (out: seq<Entry>)
    ensures (forall n | n in Names(env) :: n in Last(env)) && out == Listed(Last(env), Names(env))
  {
    hide Last, Names, Name;
    assert Last([]) == map[] && Names([]) == [] && env[..0] == [] by { NoNames(); }
    var last: map<string, Entry> := map[];
    for i := 0 to |env|
      invariant last == Last(env[..i])
    {
      OneMore(env[..i], env[i]);
      assert env[..i] + [env[i]] == env[..i + 1];
      last := last[Name(env[i]) := env[i]];
    }
    assert env[..|env|] == env;
    LastNamed(env);
    out := [];
    for i := 0 to |env|
      invariant last == Last(env) - (set n | n in Names(env[..i]))
      invariant (forall n | n in Names(env[..i]) :: n in Last(env)) && out == Listed(Last(env), Names(env[..i]))
    {
      OneMore(env[..i], env[i]);
      assert env[..i] + [env[i]] == env[..i + 1];
      var name := Name(env[i]);
      NamedAfter(env, i);
      if name in last {
        out := out + [last[name]];
        last := last - {name};
      }
    }
  }

  lemma NoNames()
    ensures Names([]) == [] && Last([]) == map[]
  {
  }

  lemma NamedAfter(env: seq<Entry>, i: nat)
    requires i < |env|
    ensures Name(env[i]) in Last(env)
    decreases |env| - i
  {
    if i < |env| - 1 { NamedAfter(env[..|env| - 1], i); }
  }

  /** The list of each name's last entry means the same, names each name once, and keeps their order. */
  lemma {:induction false} ListedMeansTheSame(last: map<string, Entry>, names: seq<string>)
    requires forall n | n in names :: n in last && Name(last[n]) == n
    requires forall i, j | 0 <= i < j < |names| :: names[i] != names[j]
    ensures Names(Listed(last, names)) == names
    ensures forall n :: n in Last(Listed(last, names)) <==> n in names
    ensures forall n | n in names :: Last(Listed(last, names))[n] == last[n]
  {
    if names != [] {
      hide Last, Names, Name;
      var front, n := names[..|names| - 1], names[|names| - 1];
      ListedMeansTheSame(last, front);
      var before, e := Listed(last, front), last[n];
      assert Listed(last, names) == before + [e];
      assert names == front + [n];
      ListedOneMore(last, front, n, before);
    }
  }

  lemma ListedOneMore(last: map<string, Entry>, front: seq<string>, n: string, before: seq<Entry>)
    requires n in last && Name(last[n]) == n && n !in front && Names(before) == front
    requires forall m :: m in Last(before) <==> m in front
    requires forall m | m in front :: m in last && Last(before)[m] == last[m]
    ensures Names(before + [last[n]]) == front + [n]
    ensures forall m :: m in Last(before + [last[n]]) <==> m in front + [n]
    ensures forall m | m in front + [n] :: Last(before + [last[n]])[m] == last[m]
  {
    hide Last, Names, Name;
    OneMore(before, last[n]);
  }

  lemma LastWinsMeansTheSame(env: seq<Entry>)
    ensures forall n | n in Names(env) :: n in Last(env)
    ensures Last(Listed(Last(env), Names(env))) == Last(env) && Names(Listed(Last(env), Names(env))) == Names(env)
  {
    LastNamed(env);
    ListedMeansTheSame(Last(env), Names(env));
  }

  // What a child inherits

  predicate Prefixed(name: string, prefix: string) { prefix != "" && prefix <= name }

  predicate PassedOn(name: string, prefix: string) {
    !Prefixed(name, prefix) && !(ANFRA <= name) && name !in STRIPPED
  }

  function Inherited(environ: seq<Entry>, prefix: string): seq<Entry> {
    if environ == [] then []
    else
      var kv := environ[|environ| - 1];
      Inherited(environ[..|environ| - 1], prefix) + if PassedOn(Name(kv), prefix) then [kv] else []
  }

  function Forwarded(environ: seq<Entry>, prefix: string): seq<Entry> {
    if environ == [] then []
    else
      var kv := environ[|environ| - 1];
      Forwarded(environ[..|environ| - 1], prefix)
      + if Prefixed(Name(kv), prefix) && Name(kv) != prefix then [Name(kv)[|prefix|..] + "=" + Value(kv)] else []
  }

  lemma {:induction false} InheritedMeans(environ: seq<Entry>, prefix: string)
    ensures forall n :: n in Last(Inherited(environ, prefix)) <==> n in Last(environ) && PassedOn(n, prefix)
    ensures forall n | n in Last(Inherited(environ, prefix)) :: Last(Inherited(environ, prefix))[n] == Last(environ)[n]
  {
    if environ != [] {
      hide PassedOn, Name;
      var kv := environ[|environ| - 1];
      var before := Inherited(environ[..|environ| - 1], prefix);
      InheritedMeans(environ[..|environ| - 1], prefix);
      OneMore(before, kv);
      assert before + [] == before;
    }
  }

  lemma OneMore(env: seq<Entry>, kv: Entry)
    ensures Last(env + [kv]) == Last(env)[Name(kv) := kv]
    ensures Names(env + [kv]) == if Name(kv) in Names(env) then Names(env) else Names(env) + [Name(kv)]
  {
    assert (env + [kv])[..|env|] == env;
  }

  /** What is forwarded: each prefixed name's last value, under the name without the prefix. */
  lemma {:induction false} ForwardedMeans(environ: seq<Entry>, prefix: string)
    ensures forall n :: n in Last(Forwarded(environ, prefix)) <==> n != "" && prefix != "" && prefix + n in Last(environ)
    ensures forall n | n in Last(Forwarded(environ, prefix)) ::
              Last(Forwarded(environ, prefix))[n] == n + "=" + Value(Last(environ)[prefix + n])
  {
    if environ != [] {
      var kv := environ[|environ| - 1];
      var name, before := Name(kv), Forwarded(environ[..|environ| - 1], prefix);
      ForwardedMeans(environ[..|environ| - 1], prefix);
      if Prefixed(name, prefix) && name != prefix {
        var n := name[|prefix|..];
        var e := n + "=" + Value(kv);
        NameOf(n, Value(kv));
        OneMore(before, e);
        assert prefix + n == name;
        forall m | prefix + m == name ensures m == n { assert (prefix + m)[|prefix|..] == m; }
      } else {
        assert before + [] == before;
        forall m | m != "" && prefix != "" ensures prefix + m != name { assert prefix <= prefix + m && |prefix + m| > |prefix|; }
      }
    }
  }

  /** The environment a sidecar gets, of the supervisor's own, its defaults and its fixed values. */
  method ChildEnv(environ: seq<Entry>, prefix: string, defaults: seq<Entry>, fixed: seq<Entry>) returns (env: seq<Entry>)
    ensures Last(env) == Last(Inherited(environ, prefix)) + Last(defaults) + Last(Forwarded(environ, prefix)) + Last(fixed)
    ensures Names(env) == Names(Inherited(environ, prefix) + defaults + Forwarded(environ, prefix) + fixed)
    ensures |env| == |Names(env)| && forall i | 0 <= i < |env| :: Name(env[i]) == Names(env)[i]
  {
    var inherited, forwarded := [], [];
    for i := 0 to |environ|
      invariant inherited == Inherited(environ[..i], prefix) && forwarded == Forwarded(environ[..i], prefix)
    {
      assert environ[..i + 1][..i] == environ[..i];
      var kv := environ[i];
      var name := Name(kv);
      if prefix != "" && prefix <= name {
        if name[|prefix|..] != "" { forwarded := forwarded + [name[|prefix|..] + "=" + Value(kv)]; }
      } else if ANFRA <= name || name in STRIPPED {
      } else {
        inherited := inherited + [kv];
      }
    }
    assert environ[..|environ|] == environ;
    var all := inherited + defaults + forwarded + fixed;
    env := LastWins(all);
    LastConcat(inherited + defaults + forwarded, fixed);
    LastConcat(inherited + defaults, forwarded);
    LastConcat(inherited, defaults);
    LastWinsMeansTheSame(all);
    LastNamed(all);
  }

  /** The entry a child has for a name, if it has one: of the supervisor's fixed values, else of the
      names under the child's prefix, else of the defaults, else, where it is passed on, of the rest. */
  function Seen(environ: seq<Entry>, prefix: string, defaults: seq<Entry>, fixed: seq<Entry>, n: string): seq<Entry> {
    if n in Last(fixed) then [Last(fixed)[n]]
    else if n != "" && prefix != "" && prefix + n in Last(environ) then [n + "=" + Value(Last(environ)[prefix + n])]
    else if n in Last(defaults) then [Last(defaults)[n]]
    else if n in Last(environ) && PassedOn(n, prefix) then [Last(environ)[n]]
    else []
  }

  lemma WhatAChildSees(environ: seq<Entry>, prefix: string, defaults: seq<Entry>, fixed: seq<Entry>, n: string)
    ensures var env := Last(Inherited(environ, prefix)) + Last(defaults) + Last(Forwarded(environ, prefix)) + Last(fixed);
            Seen(environ, prefix, defaults, fixed, n) == if n in env then [env[n]] else []
  {
    hide Last, Inherited, Forwarded, PassedOn, Value;
    InheritedMeans(environ, prefix);
    ForwardedMeans(environ, prefix);
  }

  /** A name of anfra's own, of the child's prefix, or stripped, is set only by the supervisor or under
      the prefix. */
  lemma WithheldUnlessSet(environ: seq<Entry>, prefix: string, defaults: seq<Entry>, fixed: seq<Entry>, n: string)
    requires ANFRA <= n || n in STRIPPED || Prefixed(n, prefix)
    ensures Seen(environ, prefix, defaults, fixed, n) != [] <==>
            n in Last(defaults) || n in Last(fixed) || (n != "" && prefix != "" && prefix + n in Last(environ))
  {
  }

  /** Any other name is passed on as it is, where none of the three sets it. */
  lemma PassedOnOtherwise(environ: seq<Entry>, prefix: string, defaults: seq<Entry>, fixed: seq<Entry>, n: string)
    requires n in Last(environ) && !(ANFRA <= n) && n !in STRIPPED && (prefix == "" || !(prefix <= n))
    requires n !in Last(defaults) && n !in Last(fixed) && (n == "" || prefix == "" || prefix + n !in Last(environ))
    ensures Seen(environ, prefix, defaults, fixed, n) == [Last(environ)[n]]
  {
  }

  /** What is inherited and what is forwarded keep the order they came in. */
  lemma {:induction false} InheritedInOrder(a: seq<Entry>, b: seq<Entry>, prefix: string)
    ensures Inherited(a + b, prefix) == Inherited(a, prefix) + Inherited(b, prefix)
    ensures Forwarded(a + b, prefix) == Forwarded(a, prefix) + Forwarded(b, prefix)
  {
    if b == [] {
      assert a + b == a;
    } else {
      assert (a + b)[..|a + b| - 1] == a + b[..|b| - 1];
      InheritedInOrder(a, b[..|b| - 1], prefix);
    }
  }

}
