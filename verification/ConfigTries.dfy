/**
 Layered configuration: sources are merged in order, environment variables become paths in a trie, and
 values are read with dotted paths.
 */
module ConfigTries {
  import opened Results
  import opened Texts

  datatype Value = Leaf(text: string) | Node(entries: Entries)

  type Entries = map<string, Value>

  type Path = seq<string>

  /** Walking a path from a value. */
  function Lookup(v: Value, path: Path): Option<Value>
    decreases |path|
  {
    if path == [] then Some(v)
    else if v.Node? && path[0] in v.entries then Lookup(v.entries[path[0]], path[1..])
    else None
  }

  function ReadAt(data: Entries, key: string): Option<Value> {
    Lookup(Node(data), Split(key, '.'))
  }

  // ----- Environment variables -----

  datatype Setting = Setting(path: Path, text: string)

  /** `setNested`: a missing inner map is created; an inner value that is not a map is left alone, and
      the rest of the path is set beside it. */
  function SetNested(data: Entries, path: Path, text: string): Entries
    decreases |path|
  {
    if path == [] then data
    else if |path| == 1 then data[path[0] := Leaf(text)]
    else
      var inner := if path[0] in data then data[path[0]] else Node(map[]);
      match inner
      case Node(entries) => data[path[0] := Node(SetNested(entries, path[1..], text))]
      case Leaf(_) => SetNested(data, path[1..], text)
  }

  function FindEquals(env: string): nat {
    if env == [] || env[0] == '=' then 0 else 1 + FindEquals(env[1..])
  }

  /** What an environment entry `NAME=value` sets, if it has the prefix and an equals sign. */
  function SettingOf(env: string, prefix: string): (s: Option<Setting>)
    ensures s.Some? ==> s.value.path != []
  {
    var eq := FindEquals(env);
    if prefix <= env && eq < |env| then
      Some(Setting(Split(Lower(TrimPrefix(env[..eq], prefix)), '_'), env[eq + 1..]))
    else None
  }

  function Settings(environ: seq<string>, prefix: string): (r: seq<Setting>)
    ensures forall i :: 0 <= i < |r| ==> r[i].path != []
  {
    if environ == [] then [] else
      Settings(environ[..|environ| - 1], prefix)
      + match SettingOf(environ[|environ| - 1], prefix) case Some(s) => [s] case None => []
  }

  function Build(settings: seq<Setting>): Entries {
    if settings == [] then map[] else
      var s := settings[|settings| - 1];
      SetNested(Build(settings[..|settings| - 1]), s.path, s.text)
  }

  lemma BuildSnoc(settings: seq<Setting>, s: Setting)
    ensures Build(settings + [s]) == SetNested(Build(settings), s.path, s.text)
  {
    assert (settings + [s])[..|settings|] == settings;
  }

  lemma NextEntry(environ: seq<string>, i: nat, prefix: string)
    requires i < |environ|
    ensures var before := Settings(environ[..i], prefix);
            Build(Settings(environ[..i + 1], prefix))
            == match SettingOf(environ[i], prefix)
               case Some(s) => SetNested(Build(before), s.path, s.text)
               case None => Build(before)
  {
    hide SettingOf, Build;
    var before := Settings(environ[..i], prefix);
    assert environ[..i + 1][..i] == environ[..i];
    assert before + [] == before;
    if SettingOf(environ[i], prefix).Some? {
      BuildSnoc(before, SettingOf(environ[i], prefix).value);
    }
  }

  lemma NoEntries(prefix: string)
    ensures Build(Settings([], prefix)) == map[]
  {
  }

  // ----- Sources -----

  datatype Loaded = Failed | Data(entries: Entries)

  /** What a list of load results makes of the data there was before. */
  function LoadAll(data: Entries, results: seq<Loaded>): Entries {
    if results == [] then data else
      var before := LoadAll(data, results[..|results| - 1]);
      match results[|results| - 1]
      case Failed => before
      case Data(entries) => before + entries
  }

  class Config {
    var data: Entries

    constructor ()
      ensures data == map[]
    {
      data := map[];
    }

    /** `results` are what the sources' own `Load` returned, in registration order. */
    method Load(results: seq<Loaded>) returns (ok: bool)
      modifies this
      ensures data == LoadAll(old(data), results)
      ensures ok <==> forall i :: 0 <= i < |results| ==> results[i].Data?
    {
      var errors := 0;
      for i := 0 to |results|
        invariant data == LoadAll(old(data), results[..i])
        invariant 0 <= errors <= i
        invariant errors == 0 <==> forall j :: 0 <= j < i ==> results[j].Data?
      {
        assert results[..i + 1][..i] == results[..i];
        if results[i].Failed? {
          errors := errors + 1;
          continue;
        }
        Merge(results[i].entries);
      }
      assert results[..|results|] == results;
      ok := errors == 0;
    }

    method Merge(entries: Entries)
      modifies this
      ensures data == old(data) + entries
    {
      var keys := entries.Keys;
      while keys != {}
        invariant keys <= entries.Keys
        invariant data == old(data) + map k | k in entries && k !in keys :: entries[k]
        decreases keys
      {
        var k :| k in keys;
        data := data[k := entries[k]];
        keys := keys - {k};
      }
    }

    method Get(key: string) returns (r: Option<Value>)
      ensures r == ReadAt(data, key)
    {
      var keys := Split(key, '.');
      var value := Node(data);
      for i := 0 to |keys|
        invariant Lookup(value, keys[i..]) == Lookup(Node(data), keys)
      {
        assert keys[i..][1..] == keys[i + 1..];
        match value {
          case Node(entries) =>
            if keys[i] !in entries {
              return None;
            }
            value := entries[keys[i]];
          case Leaf(_) =>
            return None;
        }
      }
      return Some(value);
    }
  }

  /** Across sources, a path reads from the last successfully loaded source that defines its first
      segment, and from the data there was before if none does. */
  lemma {:induction false} LastDefiningSource(data: Entries, results: seq<Loaded>, path: Path, j: int)
    requires path != [] && -1 <= j < |results|
    requires j >= 0 ==> results[j].Data? && path[0] in results[j].entries
    requires forall i :: j < i < |results| && results[i].Data? ==> path[0] !in results[i].entries
    ensures Lookup(Node(LoadAll(data, results)), path)
            == Lookup(Node(if j >= 0 then results[j].entries else data), path)
  {
    if j < |results| - 1 {
      LastDefiningSource(data, results[..|results| - 1], path, j);
    }
  }

  // ----- The trie keeps what was put in -----

  lemma {:induction false} LookupThrough(v: Value, a: Path, b: Path)
    ensures Lookup(v, a + b) == if Lookup(v, a).Some? then Lookup(Lookup(v, a).value, b) else None
    decreases |a|
  {
    if a == [] {
      assert a + b == b;
    } else {
      assert (a + b)[1..] == a[1..] + b;
      if v.Node? && a[0] in v.entries {
        LookupThrough(v.entries[a[0]], a[1..], b);
      }
    }
  }

  predicate LeafAt(data: Entries, path: Path) {
    Lookup(Node(data), path).Some? && Lookup(Node(data), path).value.Leaf?
  }

  /** No value that is not a map is in the way of `path`. */
  ghost predicate Clear(data: Entries, path: Path) {
    forall k :: 0 < k < |path| ==> !LeafAt(data, path[..k])
  }

  lemma ClearBelow(data: Entries, path: Path)
    requires |path| > 1 && Clear(data, path)
    ensures path[0] in data ==> data[path[0]].Node? && Clear(data[path[0]].entries, path[1..])
  {
    if path[0] in data {
      assert path[..1] == [path[0]] && !LeafAt(data, path[..1]);
      assert Lookup(data[path[0]], []) == Some(data[path[0]]);
      assert path[..1][1..] == [];
      forall k | 0 < k < |path| - 1 ensures !LeafAt(data[path[0]].entries, path[1..][..k]) {
        assert !LeafAt(data, path[..k + 1]);
        assert path[..k + 1][1..] == path[1..][..k];
      }
    }
  }

  lemma NothingInEmpty(path: Path)
    ensures path != [] ==> Lookup(Node(map[]), path) == None
    ensures Clear(map[], path)
  {
  }

  /** Setting a clear path: it reads back, unrelated paths read as before, and no other leaf appears. */
  lemma {:induction false} SetThenLookup(data: Entries, q: Path, text: string, p: Path)
    requires q != [] && p != [] && Clear(data, q)
    ensures var r := Lookup(Node(SetNested(data, q, text)), p);
            && (p == q ==> r == Some(Leaf(text)))
            && (!(q <= p) && !(p <= q) ==> r == Lookup(Node(data), p))
            && (p != q && r.Some? && r.value.Leaf? ==> r == Lookup(Node(data), p))
    decreases |q|
  {
    var r := SetNested(data, q, text);
    if |q| == 1 {
      if p[0] == q[0] {
        assert q <= p;
        assert |p| == 1 ==> p == q && p[1..] == [];
      }
    } else if p[0] == q[0] {
      ClearBelow(data, q);
      var inner := if q[0] in data then data[q[0]].entries else map[];
      NothingInEmpty(q[1..]);
      NothingInEmpty(p[1..]);
      assert r == data[q[0] := Node(SetNested(inner, q[1..], text))];
      if |p| > 1 {
        SetThenLookup(inner, q[1..], text, p[1..]);
        assert p[1..] <= q[1..] ==> p <= q by { PrefixTail(p, q); }
        assert q[1..] <= p[1..] ==> q <= p by { PrefixTail(q, p); }
        assert p[1..] == q[1..] ==> p == q by { PrefixTail(p, q); PrefixTail(q, p); }
      } else {
        assert p == [q[0]] && p[1..] == [] && p <= q;
      }
    } else {
      ClearBelow(data, q);
    }
  }

  lemma PrefixTail(p: Path, q: Path)
    requires p != [] && q != [] && p[0] == q[0]
    ensures p[1..] <= q[1..] <==> p <= q
    ensures p[1..] == q[1..] ==> p == q
  {
    assert p == [p[0]] + p[1..] && q == [q[0]] + q[1..];
  }

  /** No setting's path is a proper prefix of another's, and equal paths set equal values. */
  ghost predicate Compatible(settings: seq<Setting>) {
    forall i, j :: 0 <= i < |settings| && 0 <= j < |settings| && settings[i].path <= settings[j].path ==>
      settings[i] == settings[j]
  }

  ghost predicate Recovered(settings: seq<Setting>, data: Entries) {
    forall i :: 0 <= i < |settings| ==> Lookup(Node(data), settings[i].path) == Some(Leaf(settings[i].text))
  }

  /** Every leaf was put there by a setting. */
  ghost predicate Accounted(settings: seq<Setting>, data: Entries) {
    forall p: Path :: p != [] && LeafAt(data, p) ==> exists i :: 0 <= i < |settings| && settings[i].path == p
  }

  lemma NotOnTheWay(settings: seq<Setting>, s: Setting)
    requires Compatible(settings + [s])
    ensures forall i, k :: 0 <= i < |settings| && 0 < k < |s.path| ==> settings[i].path != s.path[..k]
  {
    var all := settings + [s];
    assert all[|settings|] == s;
    forall i, k | 0 <= i < |settings| && 0 < k < |s.path| ensures settings[i].path != s.path[..k] {
      assert all[i] == settings[i] && s.path[..k] <= s.path;
      assert all[i].path <= s.path ==> all[i] == s;
    }
  }

  lemma SetCompatible(settings: seq<Setting>, data: Entries, s: Setting)
    requires Compatible(settings + [s]) && s.path != []
    requires forall i :: 0 <= i < |settings| ==> settings[i].path != []
    requires Recovered(settings, data) && Accounted(settings, data)
    ensures Recovered(settings + [s], SetNested(data, s.path, s.text))
    ensures Accounted(settings + [s], SetNested(data, s.path, s.text))
  {
    var all, after := settings + [s], SetNested(data, s.path, s.text);
    NotOnTheWay(settings, s);
    forall k | 0 < k < |s.path| ensures !LeafAt(data, s.path[..k]) {
      assert s.path[..k] != [];
    }
    forall i | 0 <= i < |all| ensures Lookup(Node(after), all[i].path) == Some(Leaf(all[i].text)) {
      assert all[|settings|] == s;
      SetThenLookup(data, s.path, s.text, all[i].path);
      assert all[i].path <= s.path ==> all[i] == s;
      assert s.path <= all[i].path ==> all[i] == s;
    }
    forall p: Path | p != [] && LeafAt(after, p) ensures exists i :: 0 <= i < |all| && all[i].path == p {
      SetThenLookup(data, s.path, s.text, p);
      if p == s.path {
        assert all[|settings|].path == p;
      } else {
        assert LeafAt(data, p);
        var i :| 0 <= i < |settings| && settings[i].path == p;
        assert all[i].path == p;
      }
    }
  }

  lemma {:induction false} CompatibleRecovered(settings: seq<Setting>)
    requires Compatible(settings) && forall i :: 0 <= i < |settings| ==> settings[i].path != []
    ensures Recovered(settings, Build(settings)) && Accounted(settings, Build(settings))
  {
    if settings == [] {
      forall p: Path | p != [] ensures !LeafAt(map[], p) {
        NothingInEmpty(p);
      }
    } else {
      var front, s := settings[..|settings| - 1], settings[|settings| - 1];
      assert settings == front + [s];
      CompatibleRecovered(front);
      SetCompatible(front, Build(front), s);
    }
  }

  /** Every setting can be read back exactly if the settings are compatible; this does not depend on
      the order in which the environment lists them. */
  lemma RecoveredIffCompatible(settings: seq<Setting>)
    requires forall i :: 0 <= i < |settings| ==> settings[i].path != []
    ensures Recovered(settings, Build(settings)) <==> Compatible(settings)
  {
    hide Build, Accounted;
    if Compatible(settings) {
      CompatibleRecovered(settings);
    }
    if Recovered(settings, Build(settings)) {
      forall i, j | 0 <= i < |settings| && 0 <= j < |settings| && settings[i].path <= settings[j].path
        ensures settings[i] == settings[j]
      {
        var a := settings[i].path;
        var b := settings[j].path[|a|..];
        assert settings[j].path == a + b;
        LookupThrough(Node(Build(settings)), a, b);
        assert b == [] ==> a + b == a;
      }
    }
  }

  /** The round trip through `Get`: environment entries whose paths are compatible and have no dots are
      each found under their dotted path. */
  lemma EnvironmentRoundTrip(environ: seq<string>, prefix: string, i: nat)
    requires i < |Settings(environ, prefix)| && Compatible(Settings(environ, prefix))
    requires forall part :: part in Settings(environ, prefix)[i].path ==> '.' !in part
    ensures var s := Settings(environ, prefix)[i];
            ReadAt(Build(Settings(environ, prefix)), Join(s.path, ".")) == Some(Leaf(s.text))
  {
    var settings := Settings(environ, prefix);
    RecoveredIffCompatible(settings);
    SplitJoin(settings[i].path, '.');
  }

  lemma {:induction false} EqualsFound(name: string, value: string)
    requires '=' !in name
    ensures FindEquals(name + "=" + value) == |name|
  {
    var env := name + "=" + value;
    if name == [] {
      assert env[0] == '=';
    } else {
      assert env[1..] == name[1..] + "=" + value;
      EqualsFound(name[1..], value);
    }
  }

  /** A variable name as a dotted path: small letters, and a dot for each underscore. */
  function Dotted(name: string): (path: string)
    ensures |path| == |name|
    ensures forall i :: 0 <= i < |name| ==> path[i] == if name[i] == '_' then '.' else LowerChar(name[i])
  {
    seq(|name|, i requires 0 <= i < |name| => if name[i] == '_' then '.' else LowerChar(name[i]))
  }

  /** Entries without the prefix or without an equals sign set nothing; all others do. */
  lemma SetsIff(env: string, prefix: string)
    ensures SettingOf(env, prefix).Some? <==> prefix <= env && '=' in env
  {
    EqualsIn(env);
  }

  lemma {:induction false} EqualsIn(env: string)
    ensures FindEquals(env) < |env| <==> '=' in env
  {
    if env != [] {
      EqualsIn(env[1..]);
      assert env == [env[0]] + env[1..];
    }
  }

  lemma EntryParts(prefix: string, name: string, value: string)
    requires '=' !in prefix + name
    ensures SettingOf(prefix + name + "=" + value, prefix) == Some(Setting(Split(Lower(name), '_'), value))
  {
    hide Split, Lower;
    var env := prefix + name + "=" + value;
    EqualsFound(prefix + name, value);
    assert env[..|prefix + name|] == prefix + name;
    assert (prefix + name)[|prefix|..] == name;
    assert env[|prefix + name| + 1..] == value;
  }

  lemma NameParts(name: string)
    ensures Join(Split(Lower(name), '_'), ".") == Dotted(name)
    ensures forall i :: 0 <= i < |Split(Lower(name), '_')| ==>
              '_' !in Split(Lower(name), '_')[i] && ('.' !in name ==> '.' !in Split(Lower(name), '_')[i])
  {
    hide Split, Join;
    var lower := Lower(name);
    JoinSplit(lower, '_', '.');
    assert Join(Split(lower, '_'), ".") == Dotted(name);
    PartsWithin(lower, '_');
    assert '.' !in name ==> '.' !in lower;
  }

  /** What the entry `prefix + name + "=" + value` sets: everything after the first equals sign, under
      the path that is the name without its prefix, with dots for underscores and in small letters. */
  lemma EntrySets(prefix: string, name: string, value: string)
    requires '=' !in prefix + name
    ensures var s := SettingOf(prefix + name + "=" + value, prefix);
            && s.Some? && s.value.text == value
            && Join(s.value.path, ".") == Dotted(name)
            && forall part :: part in s.value.path ==> '_' !in part && ('.' !in name ==> '.' !in part)
  {
    EntryParts(prefix, name, value);
    hide SettingOf, Split, Lower, Join, LowerChar;
    var path := Split(Lower(name), '_');
    NameParts(name);
    forall part | part in path ensures '_' !in part && ('.' !in name ==> '.' !in part) {
      var k :| 0 <= k < |path| && path[k] == part;
    }
  }

  /** An entry's setting is among the settings of the environment. */
  lemma {:induction false} EntryListed(environ: seq<string>, prefix: string, i: nat)
    requires i < |environ| && SettingOf(environ[i], prefix).Some?
    ensures SettingOf(environ[i], prefix).value in Settings(environ, prefix)
  {
    hide SettingOf;
    if i < |environ| - 1 {
      EntryListed(environ[..|environ| - 1], prefix, i);
    }
  }

  /** The round trip from the raw entry: a name without dots, in an environment whose paths are
      compatible, is read back under the dotted path in small letters. */
  lemma VariableRoundTrip(environ: seq<string>, prefix: string, name: string, value: string)
    requires prefix + name + "=" + value in environ
    requires '=' !in prefix + name && '.' !in name
    requires Compatible(Settings(environ, prefix))
    ensures ReadAt(Build(Settings(environ, prefix)), Dotted(name)) == Some(Leaf(value))
  {
    hide SettingOf, Settings, Build, ReadAt, Compatible;
    var i :| 0 <= i < |environ| && environ[i] == prefix + name + "=" + value;
    EntrySets(prefix, name, value);
    EntryListed(environ, prefix, i);
    var settings := Settings(environ, prefix);
    var k :| 0 <= k < |settings| && settings[k] == SettingOf(environ[i], prefix).value;
    EnvironmentRoundTrip(environ, prefix, k);
  }

  lemma OtherEntry()
    ensures SettingOf("HOME=/root", "APP_") == None
  {
    assert "HOME=/root"[0] == 'H' && "APP_"[0] == 'A';
  }

  lemma OneSetting(first: string, second: string, prefix: string)
    requires SettingOf(first, prefix) == None
    ensures Compatible(Settings([first, second], prefix))
  {
    hide SettingOf;
    assert [first, second][..1] == [first] && [first][..0] == [];
    assert Settings([first], prefix) == [];
  }

  /** `APP_DB_HOST=a=b` under the prefix `APP_` is read as `db.host`. */
  lemma DatabaseHost()
    ensures ReadAt(Build(Settings(["HOME=/root", "APP_DB_HOST=a=b"], "APP_")), "db.host") == Some(Leaf("a=b"))
  {
    hide SettingOf, Settings, Build, ReadAt, Compatible, Dotted;
    var environ := ["HOME=/root", "APP_DB_HOST=a=b"];
    assert "APP_" + "DB_HOST" + "=" + "a=b" == environ[1];
    OtherEntry();
    OneSetting(environ[0], environ[1], "APP_");
    assert Dotted("DB_HOST") == "db.host";
    VariableRoundTrip(environ, "APP_", "DB_HOST", "a=b");
  }

  /** What an incompatible pair does: the inner value of `A_B` lands beside the plain `A`. */
  lemma ShadowedPathSpills(a: string, b: string, x: string, y: string)
    requires a != b
    ensures var data := Build([Setting([a], x), Setting([a, b], y)]);
            && Lookup(Node(data), [a, b]) == None
            && Lookup(Node(data), [b]) == Some(Leaf(y))
  {
    BuildSnoc([], Setting([a], x));
    BuildSnoc([Setting([a], x)], Setting([a, b], y));
    assert [] + [Setting([a], x)] == [Setting([a], x)];
    assert [Setting([a], x)] + [Setting([a, b], y)] == [Setting([a], x), Setting([a, b], y)];
    assert [a, b][1..] == [b];
    assert Build([Setting([a], x)]) == map[a := Leaf(x)];
  }
}
