/** The `#define` tables of the vertex-format and vertex-shader sources: a
    dictionary filled line by line with `dict[name] = value`, so the last
    definition of a name wins. */
module Defines {
  import opened Wrappers

  datatype Define = Define(name: string, value: string)

  /** The line's definition, if it has one, is of `name`. */
  predicate Names(d: Option<Define>, name: string) {
    d.Some? && d.value.name == name
  }

  /** `dict[name] = value` for a line that defines something. */
  function Store(table: map<string, string>, d: Option<Define>): map<string, string> {
    match d
    case None => table
    case Some(x) => table[x.name := x.value]
  }

  /** `table` holds exactly the names the lines define, each with the value
      of its last definition. */
  ghost predicate LastWins(table: map<string, string>, defs: seq<Option<Define>>) {
    && (forall name :: name in table <==> exists i :: 0 <= i < |defs| && Names(defs[i], name))
    && (forall name :: name in table ==>
          exists i :: 0 <= i < |defs| && Names(defs[i], name) && table[name] == defs[i].value.value &&
                      forall j :: i < j < |defs| ==> !Names(defs[j], name))
  }

  /** Storing one more line's definition keeps the table the last-wins table
      of the longer run. */
  lemma LastWinsStep(table: map<string, string>, defs: seq<Option<Define>>, d: Option<Define>)
    requires LastWins(table, defs)
    ensures LastWins(Store(table, d), defs + [d])
  {
    var t := Store(table, d);
    var ds := defs + [d];
    assert forall i :: 0 <= i < |defs| ==> ds[i] == defs[i];
    forall name | name in t
      ensures exists i :: 0 <= i < |ds| && Names(ds[i], name) && t[name] == ds[i].value.value &&
                          forall j :: i < j < |ds| ==> !Names(ds[j], name)
    {
      if Names(d, name) {
        assert Names(ds[|defs|], name);
      } else {
        var i :| 0 <= i < |defs| && Names(defs[i], name) && table[name] == defs[i].value.value &&
                 forall j :: i < j < |defs| ==> !Names(defs[j], name);
        assert Names(ds[i], name);
      }
    }
    forall name | exists i :: 0 <= i < |ds| && Names(ds[i], name)
      ensures name in t
    {
      var i :| 0 <= i < |ds| && Names(ds[i], name);
      if i < |defs| {
        assert Names(defs[i], name);
      }
    }
  }

  /** The last-wins table of a run of lines is unique. */
  lemma LastWinsUnique(t1: map<string, string>, t2: map<string, string>, defs: seq<Option<Define>>)
    requires LastWins(t1, defs) && LastWins(t2, defs)
    ensures t1 == t2
  {
    forall name | name in t1
      ensures name in t2 && t1[name] == t2[name]
    {
      var i :| 0 <= i < |defs| && Names(defs[i], name) && t1[name] == defs[i].value.value &&
               forall j :: i < j < |defs| ==> !Names(defs[j], name);
      var i2 :| 0 <= i2 < |defs| && Names(defs[i2], name) && t2[name] == defs[i2].value.value &&
                forall j :: i2 < j < |defs| ==> !Names(defs[j], name);
      assert i == i2;
    }
  }
}
