/**
 JSON documents and JSON merge patches: how a patch is applied (section 2 of RFC 7396), how a patch is
 computed from two documents, and the three-way form the publisher asks for.
 */
module MergePatch {

  import opened Wrappers

  datatype Json =
    | Null
    | Bool(b: bool)
    | Number(n: int)
    | String(s: string)
    | Array(items: seq<Json>)
    | Object(fields: map<string, Json>)

  const EMPTY: Json := Object(map[])

  /** The members a patch object is merged into: those of an object, none for any other value. */
  function Members(j: Json): map<string, Json> {
    if j.Object? then j.fields else map[]
  }

  /** A member by name; an absent member reads as `Null`. */
  function At(j: Json, k: string): Json {
    if k in Members(j) then Members(j)[k] else Null
  }

  /** `MergePatch(Target, Patch)` of section 2 of RFC 7396. */
  function Apply(target: Json, patch: Json): Json
    decreases patch
  {
    if !patch.Object? then patch else
    var src := Members(target);
    Object(map k | k in src.Keys + patch.fields.Keys && (k in patch.fields ==> !patch.fields[k].Null?) ::
             if k in patch.fields then Apply(At(target, k), patch.fields[k]) else src[k])
  }

  /** Does a two-way patch from `src` to `dst` mention member `k`? */
  predicate Mentions(src: Json, dst: Json, k: string)
    requires src.Object? && dst.Object?
    decreases dst, 0
  {
    && (k in src.fields || k in dst.fields)
    && (k in src.fields && k in dst.fields ==>
          if src.fields[k].Object? && dst.fields[k].Object?
          then Diff(src.fields[k], dst.fields[k]) != EMPTY
          else src.fields[k] != dst.fields[k])
  }

  /** The two-way merge patch from `src` to `dst`: removed members become nulls, changed ones are replaced. */
  function Diff(src: Json, dst: Json): (d: Json)
    requires src.Object? && dst.Object?
    ensures d.Object?
    decreases dst, 1
  {
    Object(map k | k in src.fields.Keys + dst.fields.Keys && Mentions(src, dst, k) ::
             if k !in dst.fields then Null
             else if k in src.fields && src.fields[k].Object? && dst.fields[k].Object?
             then Diff(src.fields[k], dst.fields[k])
             else dst.fields[k])
  }

  /** Is there a null at the end of this path of member names? Arrays are opaque to a merge patch. */
  predicate NullAt(j: Json, path: seq<string>) {
    if path == [] then j.Null?
    else j.Object? && path[0] in j.fields && NullAt(j.fields[path[0]], path[1..])
  }

  /** Every null of `b` sits where `a` has one too. */
  ghost predicate NullsWithin(b: Json, a: Json) {
    forall path :: NullAt(b, path) ==> NullAt(a, path)
  }

  ghost predicate NullFree(j: Json) {
    forall path :: !NullAt(j, path)
  }

  lemma {:induction false} NullsWithinMember(b: Json, a: Json, k: string)
    requires b.Object? && k in b.fields && NullsWithin(b, a)
    ensures NullsWithin(b.fields[k], At(a, k))
    ensures b.fields[k].Null? ==> k in Members(a) && At(a, k).Null?
    ensures !At(a, k).Object? && !b.fields[k].Null? ==> NullFree(b.fields[k])
  {
    assert [k][1..] == [] && NullAt(b, [k]) == b.fields[k].Null?;
    forall path | NullAt(b.fields[k], path)
      ensures NullAt(At(a, k), path) && (!At(a, k).Object? ==> path == [])
    {
      assert ([k] + path)[1..] == path;
      assert NullAt(b, [k] + path);
      assert NullAt(a, [k] + path);
    }
  }

  lemma {:induction false} NullFreeMember(j: Json, k: string)
    requires j.Object? && k in j.fields && NullFree(j)
    ensures NullFree(j.fields[k]) && !j.fields[k].Null?
  {
    forall path ensures !NullAt(j.fields[k], path) {
      assert ([k] + path)[1..] == path;
      assert !NullAt(j, [k] + path);
    }
    assert !NullAt(j.fields[k], []);
  }

  lemma {:induction false} NullFreeObject(j: Json)
    requires j.Object?
    requires forall k :: k in j.fields ==> NullFree(j.fields[k])
    ensures NullFree(j)
  {
    forall path ensures !NullAt(j, path) {
      if path != [] && path[0] in j.fields {
        assert !NullAt(j.fields[path[0]], path[1..]);
      }
    }
  }

  /** A null-free patch merged into anything that is not an object is the patch itself. */
  lemma {:induction false} ApplyToScalar(target: Json, patch: Json)
    requires !target.Object? && NullFree(patch)
    ensures Apply(target, patch) == patch
    decreases patch
  {
    if patch.Object? {
      forall k | k in patch.fields
        ensures !patch.fields[k].Null? && Apply(At(target, k), patch.fields[k]) == patch.fields[k]
      {
        NullFreeMember(patch, k);
        ApplyToScalar(Null, patch.fields[k]);
      }
      assert Apply(target, patch).fields == patch.fields;
    }
  }

  /** Applying an object patch never brings in a null the target did not have. */
  lemma {:induction false} ApplyAddsNoNulls(target: Json, patch: Json)
    requires patch.Object?
    ensures NullsWithin(Apply(target, patch), target)
    decreases patch
  {
    var out := Apply(target, patch);
    forall path | NullAt(out, path) ensures NullAt(target, path) {
      assert out.Object? && path != [];
      var k := path[0];
      assert k in out.fields && NullAt(out.fields[k], path[1..]);
      if k in patch.fields {
        assert out.fields[k] == Apply(At(target, k), patch.fields[k]);
        if patch.fields[k].Object? {
          ApplyAddsNoNulls(At(target, k), patch.fields[k]);
          assert NullAt(At(target, k), path[1..]);
        }
      }
    }
  }

  /** Applying a patch twice is applying it once, so a request whose reply was lost may be repeated. */
  lemma {:induction false} ApplyIdempotent(target: Json, patch: Json)
    ensures Apply(Apply(target, patch), patch) == Apply(target, patch)
    decreases patch
  {
    if patch.Object? {
      var once := Apply(target, patch);
      var twice := Apply(once, patch);
      forall k | k in patch.fields && !patch.fields[k].Null?
        ensures twice.fields[k] == once.fields[k]
      {
        ApplyIdempotent(At(target, k), patch.fields[k]);
      }
      assert twice.fields == once.fields;
    }
  }

  /** One member of an applied patch. */
  lemma {:induction false} ApplyAt(target: Json, patch: Json, k: string)
    requires patch.Object?
    ensures var out := Apply(target, patch);
            && out.Object?
            && (k !in patch.fields ==> (k in out.fields <==> k in Members(target)) && At(out, k) == At(target, k))
            && (k in patch.fields ==> (k in out.fields <==> !patch.fields[k].Null?))
            && (k in patch.fields ==> At(out, k) == Apply(At(target, k), patch.fields[k]))
  {
  }

  lemma {:induction false} ApplyEmpty(target: Json)
    requires target.Object?
    ensures Apply(target, EMPTY) == target
  {
    assert Apply(target, EMPTY).fields == target.fields;
  }

  /** A member that is an object in all three documents is patched by the difference of its own two values. */
  lemma {:induction false} PatchObjectAt(src: Json, dst: Json, target: Json, k: string)
    requires src.Object? && dst.Object? && target.Object?
    requires At(src, k).Object? && At(dst, k).Object? && At(target, k).Object?
    ensures k in Apply(target, Diff(src, dst)).fields
    ensures At(Apply(target, Diff(src, dst)), k) == Apply(At(target, k), Diff(At(src, k), At(dst, k)))
  {
    DiffAt(src, dst, k);
    ApplyAt(target, Diff(src, dst), k);
    DiffEmpty(At(src, k), At(dst, k));
    ApplyEmpty(At(target, k));
  }

  /** The patch is `{}` exactly when there is nothing to change. */
  lemma {:induction false} DiffEmpty(src: Json, dst: Json)
    requires src.Object? && dst.Object?
    ensures Diff(src, dst) == EMPTY <==> src == dst
    decreases dst
  {
    forall k | k in src.fields && k in dst.fields
      ensures Mentions(src, dst, k) <==> src.fields[k] != dst.fields[k]
    {
      if src.fields[k].Object? && dst.fields[k].Object? {
        DiffEmpty(src.fields[k], dst.fields[k]);
      }
    }
    if Diff(src, dst) == EMPTY {
      forall k | k in src.fields || k in dst.fields ensures !Mentions(src, dst, k) {
        assert k !in Diff(src, dst).fields;
      }
      assert src.fields.Keys == dst.fields.Keys;
      assert src.fields == dst.fields;
    }
    if src == dst {
      assert Diff(src, dst).fields == map[];
    }
  }

  /** One member of a two-way patch: there if and only if it differs, null if removed. */
  lemma {:induction false} DiffAt(src: Json, dst: Json, k: string)
    requires src.Object? && dst.Object?
    ensures var d := Diff(src, dst);
            && (k in d.fields <==> (k in src.fields) != (k in dst.fields) || At(src, k) != At(dst, k))
            && (k in d.fields ==> At(d, k) == if At(src, k).Object? && At(dst, k).Object?
                                              then Diff(At(src, k), At(dst, k)) else At(dst, k))
  {
    assert k in Diff(src, dst).fields <==> Mentions(src, dst, k);
    if k in src.fields && k in dst.fields && src.fields[k].Object? && dst.fields[k].Object? {
      DiffEmpty(src.fields[k], dst.fields[k]);
    }
  }

  /** One member of a document patched with the difference of two others. */
  lemma {:induction false} PatchAt(src: Json, dst: Json, target: Json, k: string)
    requires src.Object? && dst.Object? && target.Object?
    ensures var out := Apply(target, Diff(src, dst));
            if (k in src.fields <==> k in dst.fields) && At(src, k) == At(dst, k)
            then (k in out.fields <==> k in target.fields) && At(out, k) == At(target, k)
            else !At(dst, k).Object? ==>
              (k in out.fields <==> !At(dst, k).Null?) && At(out, k) == At(dst, k)
  {
    DiffAt(src, dst, k);
    ApplyAt(target, Diff(src, dst), k);
  }

  lemma {:induction false} RoundTripForward(src: Json, dst: Json)
    requires src.Object? && dst.Object? && NullsWithin(dst, src)
    ensures Apply(src, Diff(src, dst)) == dst
    decreases dst
  {
    var d := Diff(src, dst);
    var out := Apply(src, d);
    forall k | k in src.fields || k in dst.fields
      ensures k in out.fields <==> k in dst.fields
      ensures k in dst.fields ==> out.fields[k] == dst.fields[k]
    {
      RoundTripMember(src, dst, k);
    }
    assert out.fields == dst.fields;
  }

  lemma {:induction false} RoundTripMember(src: Json, dst: Json, k: string)
    requires src.Object? && dst.Object? && NullsWithin(dst, src)
    requires k in src.fields || k in dst.fields
    ensures k in Apply(src, Diff(src, dst)).fields <==> k in dst.fields
    ensures k in dst.fields ==> Apply(src, Diff(src, dst)).fields[k] == dst.fields[k]
    decreases dst, 0
  {
    var d := Diff(src, dst);
    if k in dst.fields {
      NullsWithinMember(dst, src, k);
      if k in src.fields && src.fields[k].Object? && dst.fields[k].Object? {
        DiffEmpty(src.fields[k], dst.fields[k]);
        RoundTripForward(src.fields[k], dst.fields[k]);
      } else if Mentions(src, dst, k) {
        assert k in d.fields && d.fields[k] == dst.fields[k] && !dst.fields[k].Null?;
        if dst.fields[k].Object? {
          ApplyToScalar(At(src, k), dst.fields[k]);
        }
      }
    }
  }

  /** Patching the old document with the patch made for it gives the new one, exactly when every null of the
      new document was already in the old one: a merge patch cannot write a null, only remove a member. */
  lemma {:induction false} RoundTrip(src: Json, dst: Json)
    requires src.Object? && dst.Object?
    ensures Apply(src, Diff(src, dst)) == dst <==> NullsWithin(dst, src)
  {
    ApplyAddsNoNulls(src, Diff(src, dst));
    if NullsWithin(dst, src) {
      RoundTripForward(src, dst);
    }
  }

  // ---------- the three-way form ----------

  /** Does the null filter keep member `k`? With `keepNull` only removals survive, without it only the rest. */
  predicate Kept(j: Json, keepNull: bool, k: string)
    requires j.Object? && k in j.fields
    decreases j, 0
  {
    var v := j.fields[k];
    if v.Null? then keepNull
    else if v.Object? && v.fields != map[] then FilterNulls(v, keepNull) != EMPTY
    else !keepNull
  }

  function FilterNulls(j: Json, keepNull: bool): (r: Json)
    requires j.Object?
    ensures r.Object?
    decreases j, 1
  {
    Object(map k | k in j.fields && Kept(j, keepNull, k) ::
             if j.fields[k].Object? && j.fields[k].fields != map[]
             then FilterNulls(j.fields[k], keepNull) else j.fields[k])
  }

  /** Two patches conflict when they give one path different values. */
  predicate Conflict(left: Json, right: Json)
    decreases left
  {
    if left.Object? then
      !right.Object? ||
      exists k :: k in left.fields && k in right.fields && Conflict(left.fields[k], right.fields[k])
    else if left.Array? then
      !right.Array? || |left.items| != |right.items| ||
      exists i :: 0 <= i < |left.items| && Conflict(left.items[i], right.items[i])
    else left != right
  }

  /** Additions and changes from `current`, removals from `original`, refused when the two conflict. */
  function ThreeWay(original: Json, modified: Json, current: Json): Option<Json>
    requires original.Object? && modified.Object? && current.Object?
  {
    var changes := FilterNulls(Diff(current, modified), false);
    var removals := FilterNulls(Diff(original, modified), true);
    if Conflict(changes, removals) then None else Some(Apply(removals, changes))
  }

  /** One member of a filtered patch. */
  lemma {:induction false} FilterAt(j: Json, keepNull: bool, k: string)
    requires j.Object? && k in j.fields
    ensures var v := j.fields[k];
            var r := FilterNulls(j, keepNull);
            if v.Object? && v.fields != map[]
            then (k in r.fields <==> FilterNulls(v, keepNull) != EMPTY) &&
                 (k in r.fields ==> r.fields[k] == FilterNulls(v, keepNull))
            else (k in r.fields <==> keepNull == v.Null?) && (k in r.fields ==> r.fields[k] == v)
  {
    assert Kept(j, keepNull, k) <==> k in FilterNulls(j, keepNull).fields;
  }

  /** The side of additions and changes is free of nulls at every depth. */
  lemma {:induction false} AdditionsNullFree(j: Json)
    requires j.Object?
    ensures NullFree(FilterNulls(j, false))
    decreases j
  {
    var drop := FilterNulls(j, false);
    forall k | k in drop.fields ensures NullFree(drop.fields[k]) {
      FilterAt(j, false, k);
      if j.fields[k].Object? && j.fields[k].fields != map[] {
        AdditionsNullFree(j.fields[k]);
      } else {
        forall path ensures !NullAt(j.fields[k], path) {}
      }
    }
    NullFreeObject(drop);
  }

  /** A patch that is empty on one side of the filter is all on the other. */
  lemma {:induction false} FilterSides(j: Json, keepNull: bool)
    requires j.Object? && FilterNulls(j, keepNull) == EMPTY
    ensures FilterNulls(j, !keepNull) == j
    decreases j
  {
    var there := FilterNulls(j, !keepNull);
    forall k | k in j.fields ensures k in there.fields && there.fields[k] == j.fields[k] {
      FilterAt(j, keepNull, k);
      FilterAt(j, !keepNull, k);
      if j.fields[k].Object? && j.fields[k].fields != map[] {
        FilterSides(j.fields[k], keepNull);
      }
    }
    assert there.fields == j.fields;
  }

  /** Splitting a patch into removals and the rest, and merging the rest into the removals, loses nothing. */
  lemma {:induction false} FilterSplit(d: Json)
    requires d.Object?
    ensures Apply(FilterNulls(d, true), FilterNulls(d, false)) == d
    ensures !Conflict(FilterNulls(d, false), FilterNulls(d, true))
    decreases d, 1
  {
    var keep, drop := FilterNulls(d, true), FilterNulls(d, false);
    forall k | k in d.fields
      ensures k in Apply(keep, drop).fields && Apply(keep, drop).fields[k] == d.fields[k]
      ensures k in keep.fields && k in drop.fields ==> !Conflict(drop.fields[k], keep.fields[k])
    {
      FilterSplitMember(d, k);
    }
    assert Apply(keep, drop).fields == d.fields;
  }

  lemma {:induction false} FilterSplitMember(d: Json, k: string)
    requires d.Object? && k in d.fields
    ensures var keep, drop := FilterNulls(d, true), FilterNulls(d, false);
            && k in Apply(keep, drop).fields && Apply(keep, drop).fields[k] == d.fields[k]
            && (k in keep.fields && k in drop.fields ==> !Conflict(drop.fields[k], keep.fields[k]))
    decreases d, 0
  {
    var v := d.fields[k];
    FilterAt(d, true, k);
    FilterAt(d, false, k);
    if v.Object? && v.fields != map[] {
      FilterSplit(v);
      AdditionsNullFree(v);
      if FilterNulls(v, true) == EMPTY {
        FilterSides(v, true);
        ApplyToScalar(Null, v);
      } else if FilterNulls(v, false) == EMPTY {
        FilterSides(v, false);
      }
    } else if v.Object? {
      assert Apply(Null, v).fields == map[];
    }
  }

  /** The publisher passes one document as both `original` and `current`: the three-way patch is then the
      two-way one, and is never refused as a conflict. */
  lemma {:induction false} ThreeWayIsTwoWay(src: Json, dst: Json)
    requires src.Object? && dst.Object?
    ensures ThreeWay(src, dst, src) == Some(Diff(src, dst))
  {
    FilterSplit(Diff(src, dst));
  }
}
