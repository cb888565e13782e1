/**
 The environment source, which writes its values into nested maps in place.

 `ConfigTries` says what the maps contain; here they are objects, and the maps below one object are
 its own.
 */
module EnvSources {
  import opened Results
  import opened Texts
  import opened ConfigTries

  /** A value stored in a map: a text, or another map. */
  datatype Slot = Text(text: string) | Nested(node: NestedMap)

  class NestedMap {
    var entries: map<string, Slot>
    ghost var repr: set<NestedMap>

    /** The maps below this one form a tree. */
    ghost predicate Valid()
      reads this, repr
      decreases repr
    {
      && this in repr
      && (forall k :: k in entries && entries[k].Nested? ==>
            var m := entries[k].node;
            m in repr && m.repr <= repr && this !in m.repr && m.Valid())
      && (forall j, k :: j in entries && k in entries && j != k && entries[j].Nested? && entries[k].Nested? ==>
            entries[j].node.repr !! entries[k].node.repr)
    }

    ghost function Contents(): Entries
      requires Valid()
      reads this, repr
      decreases repr
    {
      map k | k in entries :: if entries[k].Nested? then Node(entries[k].node.Contents()) else Leaf(entries[k].text)
    }

    constructor ()
      ensures Valid() && fresh(repr) && Contents() == map[]
    {
      entries := map[];
      repr := {this};
    }

    method Put(key: string, text: string)
      requires Valid()
      modifies this
      ensures Valid() && repr == old(repr)
      ensures Contents() == old(Contents())[key := Leaf(text)]
    {
      entries := entries[key := Text(text)];
    }

    /** A new empty map under a key that has no value. */
    method Add(key: string)
      requires Valid() && key !in entries
      modifies this
      ensures Valid() && fresh(repr - old(repr))
      ensures Contents() == old(Contents())[key := Node(map[])]
      ensures key in entries && entries[key].Nested?
    {
      var m := new NestedMap();
      entries := entries[key := Nested(m)];
      repr := repr + m.repr;
    }

    /** The walk down the path: each key either ends it, leads into the map found or made there, or, when
        something else is stored under it, is skipped. */
    method Set(keys: Path, text: string)
      requires Valid()
      modifies repr
      ensures Valid() && fresh(repr - old(repr))
      ensures Contents() == SetNested(old(Contents()), keys, text)
      decreases |keys|, 1
    {
      if |keys| == 0 {
        return;
      }
      var k := keys[0];
      if |keys| == 1 {
        Put(k, text);
        return;
      }
      if k !in entries {
        Add(k);
      }
      hide Valid, Contents;
      Inner(k);
      match entries[k] {
        case Nested(_) => SetBelow(k, keys[1..], text);
        case Text(_) => Set(keys[1..], text);
      }
    }

    lemma Inner(k: string)
      requires Valid() && k in entries
      ensures k in Contents()
      ensures Contents()[k].Node? <==> entries[k].Nested?
    {
    }

    method SetBelow(k: string, rest: Path, text: string)
      requires Valid() && k in entries && entries[k].Nested?
      modifies repr
      ensures Valid() && fresh(repr - old(repr))
      ensures k in old(Contents()) && old(Contents())[k].Node?
      ensures Contents() == old(Contents())[k := Node(SetNested(old(Contents())[k].entries, rest, text))]
      decreases |rest|, 2
    {
      hide SetNested;
      var m := entries[k].node;
      m.Set(rest, text);
      repr := repr + m.repr;
    }
  }

  /** `EnvSource.Load` over the process environment. */
  method Load(environ: seq<string>, prefix: string) returns (result: NestedMap)
    ensures result.Valid() && fresh(result.repr)
    ensures result.Contents() == Build(Settings(environ, prefix))
  {
    hide Build, Settings, SetNested, Split, Lower;
    result := new NestedMap();
    assert environ[..0] == [] && Build(Settings([], prefix)) == map[] by {
      NoEntries(prefix);
    }
    for i := 0 to |environ|
      invariant result.Valid() && fresh(result.repr)
      invariant result.Contents() == Build(Settings(environ[..i], prefix))
    {
      var env := environ[i];
      NextEntry(environ, i, prefix);
      if !(prefix <= env) {
        continue;
      }
      var eq := FindEquals(env);
      if eq >= |env| {
        continue;
      }
      var key := TrimPrefix(env[..eq], prefix);
      var keys := Split(Lower(key), '_');
      result.Set(keys, env[eq + 1..]);
    }
    assert environ[..|environ|] == environ;
  }
}
