/** Columns and schemas: an ordered sequence of typed, table-qualified columns. */
module Schemas {
  import opened Base

  datatype Column = Column(table: string, name: string, ty: string)

  type Schema = seq<Column>

  function QualifiedName(c: Column): string {
    c.table + "." + c.name
  }

  /** `Schema.contains(qualifiedName)`. */
  predicate Contains(s: Schema, qualified: string) {
    exists i :: 0 <= i < |s| && QualifiedName(s[i]) == qualified
  }

  /** Whether some column of `s` has the (unqualified) name `name`. */
  predicate HasName(s: Schema, name: string) {
    exists i :: 0 <= i < |s| && s[i].name == name
  }

  /** `SchemaUtil.merge(outer, inner)`: the outer columns followed by the inner ones. */
  function Merge(outer: Schema, inner: Schema): Schema {
    outer + inner
  }

  /** `SchemaUtil.getCommons(outer, inner)`: the outer columns whose name also
      occurs in `inner`, unqualified, in outer order. */
  function Commons(outer: Schema, inner: Schema): (r: Schema)
    ensures |r| <= |outer|
    ensures forall i :: 0 <= i < |r| ==> HasName(outer, r[i].name) && HasName(inner, r[i].name)
    ensures forall i :: 0 <= i < |outer| && HasName(inner, outer[i].name) ==> HasName(r, outer[i].name)
  {
    if outer == [] then []
    else
      var rest := Commons(outer[1..], inner);
      CommonsFromOuter(outer, rest);
      if HasName(inner, outer[0].name) then
        var r := [Column("", outer[0].name, outer[0].ty)] + rest;
        CommonsCovers(outer, inner, rest, r);
        r
      else
        CommonsCovers(outer, inner, rest, rest);
        rest
  }

  /** A name of the tail of `outer` is a name of `outer`. */
  lemma CommonsFromOuter(outer: Schema, rest: Schema)
    requires |outer| > 0
    requires forall i :: 0 <= i < |rest| ==> HasName(outer[1..], rest[i].name)
    ensures forall i :: 0 <= i < |rest| ==> HasName(outer, rest[i].name)
  {
    forall i | 0 <= i < |rest| ensures HasName(outer, rest[i].name) {
      var j :| 0 <= j < |outer[1..]| && outer[1..][j].name == rest[i].name;
      assert outer[j + 1].name == rest[i].name;
    }
  }

  /** Keeping the commons of the tail, and the head when `inner` has its
      name, keeps every common name of `outer`. */
  lemma CommonsCovers(outer: Schema, inner: Schema, rest: Schema, r: Schema)
    requires |outer| > 0
    requires forall i :: 0 <= i < |outer[1..]| && HasName(inner, outer[1..][i].name) ==> HasName(rest, outer[1..][i].name)
    requires r == rest || (r == [Column("", outer[0].name, outer[0].ty)] + rest && HasName(inner, outer[0].name))
    requires HasName(inner, outer[0].name) ==> r != rest
    ensures forall i :: 0 <= i < |outer| && HasName(inner, outer[i].name) ==> HasName(r, outer[i].name)
  {
    forall i | 0 <= i < |outer| && HasName(inner, outer[i].name) ensures HasName(r, outer[i].name) {
      if i == 0 {
        assert r[0].name == outer[0].name;
      } else {
        assert outer[1..][i - 1] == outer[i];
        var j :| 0 <= j < |rest| && rest[j].name == outer[i].name;
        if r != rest {
          assert r[j + 1] == rest[j];
        }
      }
    }
  }

  /** `Schema.getColumnByName(name)`: the first column with that name. */
  function ColumnByName(s: Schema, name: string): (r: Option<Column>)
    ensures r.Some? <==> HasName(s, name)
    ensures r.Some? ==> r.value in s && r.value.name == name
  {
    if s == [] then None
    else if s[0].name == name then Some(s[0])
    else
      var r := ColumnByName(s[1..], name);
      assert HasName(s, name) ==> HasName(s[1..], name) by {
        if HasName(s, name) {
          var j :| 0 <= j < |s| && s[j].name == name;
          assert j > 0;
          assert s[1..][j - 1] == s[j];
        }
      }
      r
  }
}
