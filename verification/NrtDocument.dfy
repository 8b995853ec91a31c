/**
 The NodeResourceTopology object, its JSON form, and what a merge patch computed from one object does to another.
 List items (zones, attributes, owner references) are kept in marshalled form: a merge patch replaces lists whole.
 */
module NrtDocument {
  import opened Wrappers
  import opened MergePatch

  datatype Nrt = Nrt(
    name: string,
    version: nat,                       // metadata.resourceVersion
    annotations: map<string, string>,
    owners: seq<Json>,
    meta: map<string, Json>,            // every other metadata field: labels, uid, creationTimestamp, ...
    rest: map<string, Json>,            // kind, apiVersion, topologyPolicies
    zones: Option<seq<Json>>,           // a nil list is marshalled as null
    attributes: seq<Json>)

  const META_KEYS: set<string> := {"name", "resourceVersion", "annotations", "ownerReferences"}
  const TOP_KEYS: set<string> := {"metadata", "zones", "attributes"}

  predicate Valid(n: Nrt) {
    n.meta.Keys !! META_KEYS && n.rest.Keys !! TOP_KEYS
  }

  function Strings(m: map<string, string>): Json {
    Object(map k | k in m :: String(m[k]))
  }

  /** The fields of `metadata`; annotations and owners are omitted when empty. */
  function EncodeMeta(n: Nrt): Json {
    var m := n.meta["name" := String(n.name)]["resourceVersion" := Number(n.version)];
    var m' := if n.annotations == map[] then m else m["annotations" := Strings(n.annotations)];
    Object(if n.owners == [] then m' else m'["ownerReferences" := Array(n.owners)])
  }

  function EncodeZones(zones: Option<seq<Json>>): Json {
    if zones.Some? then Array(zones.value) else Null
  }

  function Encode(n: Nrt): Json {
    var j := n.rest["metadata" := EncodeMeta(n)]["zones" := EncodeZones(n.zones)];
    Object(if n.attributes == [] then j else j["attributes" := Array(n.attributes)])
  }

  predicate StringsOnly(j: Json) {
    j.Object? && forall k :: k in j.fields ==> j.fields[k].String?
  }

  /** The schema the API server enforces on what it stores. */
  predicate WellFormed(j: Json) {
    && j.Object? && "metadata" in j.fields && j.fields["metadata"].Object?
    && var m := j.fields["metadata"];
    && At(m, "name").String?
    && At(m, "resourceVersion").Number? && At(m, "resourceVersion").n >= 0
    && ("annotations" in m.fields ==> StringsOnly(m.fields["annotations"]))
    && ("ownerReferences" in m.fields ==> m.fields["ownerReferences"].Array?)
    && (At(j, "zones").Null? || At(j, "zones").Array?)
    && ("attributes" in j.fields ==> j.fields["attributes"].Array?)
  }

  function DecodeStrings(j: Json): map<string, string>
    requires StringsOnly(j)
  {
    map k | k in j.fields :: j.fields[k].s
  }

  /** Reads an object back from the reply of the API server; absent lists and maps read as empty. */
  function Decode(j: Json): Nrt
    requires WellFormed(j)
  {
    var m := j.fields["metadata"];
    Nrt(At(m, "name").s,
        At(m, "resourceVersion").n,
        if "annotations" in m.fields then DecodeStrings(m.fields["annotations"]) else map[],
        if "ownerReferences" in m.fields then m.fields["ownerReferences"].items else [],
        m.fields - META_KEYS,
        j.fields - TOP_KEYS,
        if At(j, "zones").Array? then Some(At(j, "zones").items) else None,
        if "attributes" in j.fields then j.fields["attributes"].items else [])
  }

  lemma {:induction false} StringsRoundTrip(m: map<string, string>)
    ensures StringsOnly(Strings(m)) && DecodeStrings(Strings(m)) == m
  {
    var j := Strings(m);
    forall k | k in m ensures k in j.fields && j.fields[k] == String(m[k]) {}
    forall k | k in j.fields ensures k in m {}
    assert DecodeStrings(j) == m;
  }

  lemma {:induction false} MetaFields(n: Nrt)
    requires Valid(n)
    ensures var m := EncodeMeta(n).fields;
            && At(EncodeMeta(n), "name") == String(n.name)
            && At(EncodeMeta(n), "resourceVersion") == Number(n.version)
            && ("annotations" in m <==> n.annotations != map[])
            && ("annotations" in m ==> m["annotations"] == Strings(n.annotations))
            && ("ownerReferences" in m <==> n.owners != [])
            && ("ownerReferences" in m ==> m["ownerReferences"] == Array(n.owners))
            && m - META_KEYS == n.meta
  {
  }

  lemma {:induction false} TopFields(n: Nrt)
    requires Valid(n)
    ensures var j := Encode(n).fields;
            && "metadata" in j && j["metadata"] == EncodeMeta(n)
            && "zones" in j && j["zones"] == EncodeZones(n.zones)
            && ("attributes" in j <==> n.attributes != [])
            && ("attributes" in j ==> j["attributes"] == Array(n.attributes))
            && j - TOP_KEYS == n.rest
  {
  }

  /** Marshalling and reading back changes nothing. */
  lemma {:induction false} DecodeEncode(n: Nrt)
    requires Valid(n)
    ensures WellFormed(Encode(n)) && Decode(Encode(n)) == n
  {
    MetaFields(n);
    TopFields(n);
    StringsRoundTrip(n.annotations);
  }

  /** `dst` is `src` with some annotations added or changed and some of its lists replaced. */
  predicate Edits(src: Nrt, dst: Nrt) {
    && dst.name == src.name && dst.version == src.version && dst.meta == src.meta && dst.rest == src.rest
    && src.annotations.Keys <= dst.annotations.Keys
    && (dst.owners == [] ==> src.owners == [])
    && (dst.attributes == [] ==> src.attributes == [])
  }

  /** The annotations a patch from `src` to `dst` carries. */
  function Changed(src: map<string, string>, dst: map<string, string>): map<string, string> {
    map k | k in dst && (k !in src || src[k] != dst[k]) :: dst[k]
  }

  /** What the patch from `src` to `dst` does to a third object: changed annotations are merged in, a list is
      replaced only if it differs between `src` and `dst`, and nothing else is touched. */
  function Patched(src: Nrt, dst: Nrt, target: Nrt): Nrt {
    target.(annotations := target.annotations + Changed(src.annotations, dst.annotations),
            owners := if src.owners == dst.owners then target.owners else dst.owners,
            zones := if src.zones == dst.zones then target.zones else dst.zones,
            attributes := if src.attributes == dst.attributes then target.attributes else dst.attributes)
  }

  lemma {:induction false} StringsAt(m: map<string, string>, k: string)
    ensures k in Strings(m).fields <==> k in m
    ensures At(Strings(m), k) == if k in m then String(m[k]) else Null
  {
  }

  lemma {:induction false} StringsEmpty(m: map<string, string>)
    ensures Strings(m) == EMPTY <==> m == map[]
  {
    if k :| k in m { assert k in Strings(m).fields; }
  }

  lemma {:induction false} DiffStrings(src: map<string, string>, dst: map<string, string>)
    requires src.Keys <= dst.Keys
    ensures Diff(Strings(src), Strings(dst)) == Strings(Changed(src, dst))
  {
    var d := Diff(Strings(src), Strings(dst));
    var c := Changed(src, dst);
    forall k ensures (k in d.fields <==> k in Strings(c).fields) && At(d, k) == At(Strings(c), k) {
      DiffAt(Strings(src), Strings(dst), k);
      StringsAt(src, k);
      StringsAt(dst, k);
      StringsAt(c, k);
    }
    SameMembers(d, Strings(c));
  }

  lemma {:induction false} SameMembers(a: Json, b: Json)
    requires a.Object? && b.Object?
    requires forall k :: (k in a.fields <==> k in b.fields) && At(a, k) == At(b, k)
    ensures a == b
  {
    assert forall k :: k in a.fields ==> a.fields[k] == At(a, k) == At(b, k) == b.fields[k];
    assert a.fields == b.fields;
  }

  lemma {:induction false} ApplyStrings(target: Json, m: map<string, string>, c: map<string, string>)
    requires Members(target) == Strings(m).fields
    ensures Apply(target, Strings(c)) == Strings(m + c)
  {
    var out := Apply(target, Strings(c));
    forall k ensures (k in out.fields <==> k in Strings(m + c).fields) && At(out, k) == At(Strings(m + c), k) {
      ApplyAt(target, Strings(c), k);
      StringsAt(m, k);
      StringsAt(c, k);
      StringsAt(m + c, k);
    }
    SameMembers(out, Strings(m + c));
  }

  /** The patch on `metadata.annotations`: what it holds. */
  lemma {:induction false} DiffAnnotations(src: Nrt, dst: Nrt)
    requires Valid(src) && Valid(dst) && Edits(src, dst)
    ensures var d := Diff(EncodeMeta(src), EncodeMeta(dst));
            var c := Changed(src.annotations, dst.annotations);
            && ("annotations" in d.fields <==> c != map[])
            && ("annotations" in d.fields ==> d.fields["annotations"] == Strings(c))
  {
    MetaAt(src, "annotations");
    MetaAt(dst, "annotations");
    DiffAt(EncodeMeta(src), EncodeMeta(dst), "annotations");
    if src.annotations == map[] {
      assert Changed(src.annotations, dst.annotations) == dst.annotations;
    } else {
      DiffStrings(src.annotations, dst.annotations);
      DiffEmpty(Strings(src.annotations), Strings(dst.annotations));
      StringsEmpty(Changed(src.annotations, dst.annotations));
    }
  }

  /** One field of the marshalled metadata. */
  lemma {:induction false} MetaAt(n: Nrt, k: string)
    requires Valid(n)
    ensures var m := EncodeMeta(n);
            && (k in m.fields <==> MetaField(n, k).Some?)
            && At(m, k) == if MetaField(n, k).Some? then MetaField(n, k).value else Null
  {
  }

  function MetaField(n: Nrt, k: string): Option<Json> {
    if k == "name" then Some(String(n.name))
    else if k == "resourceVersion" then Some(Number(n.version))
    else if k == "annotations" then if n.annotations == map[] then None else Some(Strings(n.annotations))
    else if k == "ownerReferences" then if n.owners == [] then None else Some(Array(n.owners))
    else if k in n.meta then Some(n.meta[k]) else None
  }

  lemma {:induction false} PatchAnnotations(src: Nrt, dst: Nrt, target: Nrt)
    requires Valid(src) && Valid(dst) && Valid(target) && Edits(src, dst)
    ensures var out := Apply(EncodeMeta(target), Diff(EncodeMeta(src), EncodeMeta(dst)));
            var m := target.annotations + Changed(src.annotations, dst.annotations);
            && ("annotations" in out.fields <==> m != map[])
            && At(out, "annotations") == if m == map[] then Null else Strings(m)
  {
    ApplyAt(EncodeMeta(target), Diff(EncodeMeta(src), EncodeMeta(dst)), "annotations");
    DiffAnnotations(src, dst);
    MetaAt(target, "annotations");
    var c := Changed(src.annotations, dst.annotations);
    if c == map[] {
      assert target.annotations + c == target.annotations;
    } else {
      assert target.annotations + c != map[] by { var k :| k in c; assert k in target.annotations + c; }
      assert Members(At(EncodeMeta(target), "annotations")) == Strings(target.annotations).fields by {
        StringsEmpty(target.annotations);
      }
      ApplyStrings(At(EncodeMeta(target), "annotations"), target.annotations, c);
    }
  }

  lemma {:induction false} PatchOwners(src: Nrt, dst: Nrt, target: Nrt)
    requires Valid(src) && Valid(dst) && Valid(target) && Edits(src, dst)
    ensures var out := Apply(EncodeMeta(target), Diff(EncodeMeta(src), EncodeMeta(dst)));
            var owners := Patched(src, dst, target).owners;
            && ("ownerReferences" in out.fields <==> owners != [])
            && At(out, "ownerReferences") == if owners == [] then Null else Array(owners)
  {
    PatchAt(EncodeMeta(src), EncodeMeta(dst), EncodeMeta(target), "ownerReferences");
    MetaAt(src, "ownerReferences");
    MetaAt(dst, "ownerReferences");
    MetaAt(target, "ownerReferences");
  }

  lemma {:induction false} PatchOtherMeta(src: Nrt, dst: Nrt, target: Nrt, k: string)
    requires Valid(src) && Valid(dst) && Valid(target) && Edits(src, dst)
    requires k != "annotations" && k != "ownerReferences"
    ensures var out := Apply(EncodeMeta(target), Diff(EncodeMeta(src), EncodeMeta(dst)));
            && (k in out.fields <==> MetaField(target, k).Some?)
            && At(out, k) == At(EncodeMeta(target), k)
  {
    PatchAt(EncodeMeta(src), EncodeMeta(dst), EncodeMeta(target), k);
    assert MetaField(src, k) == MetaField(dst, k);
    MetaAt(src, k);
    MetaAt(dst, k);
    MetaAt(target, k);
  }

  lemma {:induction false} PatchMeta(src: Nrt, dst: Nrt, target: Nrt)
    requires Valid(src) && Valid(dst) && Valid(target) && Edits(src, dst)
    ensures Apply(EncodeMeta(target), Diff(EncodeMeta(src), EncodeMeta(dst))) ==
            EncodeMeta(Patched(src, dst, target))
  {
    var out := Apply(EncodeMeta(target), Diff(EncodeMeta(src), EncodeMeta(dst)));
    var want := EncodeMeta(Patched(src, dst, target));
    forall k ensures (k in out.fields <==> k in want.fields) && At(out, k) == At(want, k) {
      MetaAt(Patched(src, dst, target), k);
      if k == "annotations" {
        PatchAnnotations(src, dst, target);
      } else if k == "ownerReferences" {
        PatchOwners(src, dst, target);
      } else {
        PatchOtherMeta(src, dst, target, k);
        MetaAt(target, k);
      }
    }
    SameMembers(out, want);
  }

  function TopField(n: Nrt, k: string): Option<Json> {
    if k == "metadata" then Some(EncodeMeta(n))
    else if k == "zones" then Some(EncodeZones(n.zones))
    else if k == "attributes" then if n.attributes == [] then None else Some(Array(n.attributes))
    else if k in n.rest then Some(n.rest[k]) else None
  }

  /** One top-level field of the marshalled object. */
  lemma {:induction false} TopAt(n: Nrt, k: string)
    requires Valid(n)
    ensures var j := Encode(n);
            && (k in j.fields <==> TopField(n, k).Some?)
            && At(j, k) == if TopField(n, k).Some? then TopField(n, k).value else Null
  {
  }

  lemma {:induction false} PatchZones(src: Nrt, dst: Nrt, target: Nrt)
    requires Valid(src) && Valid(dst) && Valid(target)
    ensures At(Apply(Encode(target), Diff(Encode(src), Encode(dst))), "zones") ==
            EncodeZones(Patched(src, dst, target).zones)
  {
    PatchAt(Encode(src), Encode(dst), Encode(target), "zones");
    TopAt(src, "zones");
    TopAt(dst, "zones");
    TopAt(target, "zones");
  }

  lemma {:induction false} PatchAttributes(src: Nrt, dst: Nrt, target: Nrt)
    requires Valid(src) && Valid(dst) && Valid(target) && Edits(src, dst)
    ensures var out := Apply(Encode(target), Diff(Encode(src), Encode(dst)));
            var attributes := Patched(src, dst, target).attributes;
            && ("attributes" in out.fields <==> attributes != [])
            && At(out, "attributes") == if attributes == [] then Null else Array(attributes)
  {
    PatchAt(Encode(src), Encode(dst), Encode(target), "attributes");
    TopAt(src, "attributes");
    TopAt(dst, "attributes");
    TopAt(target, "attributes");
  }

  lemma {:induction false} PatchOtherTop(src: Nrt, dst: Nrt, target: Nrt, k: string)
    requires Valid(src) && Valid(dst) && Valid(target) && Edits(src, dst) && k !in TOP_KEYS
    ensures var out := Apply(Encode(target), Diff(Encode(src), Encode(dst)));
            && (k in out.fields <==> k in target.rest)
            && At(out, k) == At(Encode(target), k)
  {
    PatchAt(Encode(src), Encode(dst), Encode(target), k);
    assert TopField(src, k) == TopField(dst, k);
    TopAt(src, k);
    TopAt(dst, k);
    TopAt(target, k);
  }

  lemma {:induction false} PatchTopMeta(src: Nrt, dst: Nrt, target: Nrt)
    requires Valid(src) && Valid(dst) && Valid(target) && Edits(src, dst)
    ensures var out := Apply(Encode(target), Diff(Encode(src), Encode(dst)));
            "metadata" in out.fields && At(out, "metadata") == EncodeMeta(Patched(src, dst, target))
  {
    TopAt(src, "metadata");
    TopAt(dst, "metadata");
    TopAt(target, "metadata");
    PatchObjectAt(Encode(src), Encode(dst), Encode(target), "metadata");
    PatchMeta(src, dst, target);
  }

  /** An absent list of zones and a null one read the same. */
  lemma {:induction false} DecodeSame(a: Json, b: Json)
    requires a.Object? && b.Object? && WellFormed(b)
    requires forall k :: At(a, k) == At(b, k)
    requires forall k :: k != "zones" ==> (k in a.fields <==> k in b.fields)
    ensures WellFormed(a) && Decode(a) == Decode(b)
  {
    assert forall k :: k in a.fields ==> a.fields[k] == At(a, k);
    assert forall k :: k in b.fields ==> b.fields[k] == At(b, k);
    assert At(a, "metadata") == At(b, "metadata") && At(a, "zones") == At(b, "zones");
    assert At(a, "attributes") == At(b, "attributes");
    assert a.fields - TOP_KEYS == b.fields - TOP_KEYS;
  }

  /** On the wire the patch from `src` to `dst`, applied to any stored object, is accepted and has exactly the
      typed effect `Patched`. */
  lemma {:induction false} PatchEffect(src: Nrt, dst: Nrt, target: Nrt)
    requires Valid(src) && Valid(dst) && Valid(target) && Edits(src, dst)
    ensures var out := Apply(Encode(target), Diff(Encode(src), Encode(dst)));
            WellFormed(out) && Decode(out) == Patched(src, dst, target)
  {
    var out := Apply(Encode(target), Diff(Encode(src), Encode(dst)));
    var want := Patched(src, dst, target);
    DecodeEncode(want);
    forall k
      ensures At(out, k) == At(Encode(want), k)
      ensures k != "zones" ==> (k in out.fields <==> k in Encode(want).fields)
    {
      TopAt(want, k);
      if k == "metadata" {
        PatchTopMeta(src, dst, target);
      } else if k == "zones" {
        PatchZones(src, dst, target);
      } else if k == "attributes" {
        PatchAttributes(src, dst, target);
      } else {
        PatchOtherTop(src, dst, target, k);
        TopAt(target, k);
      }
    }
    DecodeSame(out, Encode(want));
  }

  /** Patching the object the patch was made for gives the object it was made to reach. */
  lemma {:induction false} PatchedSelf(src: Nrt, dst: Nrt)
    requires Edits(src, dst)
    ensures Patched(src, dst, src) == dst
  {
    assert src.annotations + Changed(src.annotations, dst.annotations) == dst.annotations;
  }

  /** A patch reaches nothing but annotations, owner references, zones and attributes, and it holds a null only
      when a list of zones is replaced by a nil one. */
  lemma {:induction false} PatchFrame(src: Nrt, dst: Nrt)
    requires Valid(src) && Valid(dst) && Edits(src, dst)
    ensures var d := Diff(Encode(src), Encode(dst));
            && d.fields.Keys <= TOP_KEYS
            && Members(At(d, "metadata")).Keys <= {"annotations", "ownerReferences"}
            && (NullFree(d) <==> (dst.zones.None? ==> src.zones.None?))
  {
    var d := Diff(Encode(src), Encode(dst));
    forall k | k in d.fields
      ensures k in TOP_KEYS
      ensures k == "metadata" ==> d.fields[k] == Diff(EncodeMeta(src), EncodeMeta(dst))
      ensures k != "metadata" ==> !d.fields[k].Object?
      ensures d.fields[k].Null? <==> k == "zones" && dst.zones.None?
    {
      DiffAt(Encode(src), Encode(dst), k);
      TopAt(src, k);
      TopAt(dst, k);
    }
    MetaFrame(src, dst);
    DiffAt(Encode(src), Encode(dst), "zones");
    TopAt(src, "zones");
    TopAt(dst, "zones");
    if "zones" in d.fields && d.fields["zones"].Null? {
      assert ["zones"][1..] == [] && NullAt(d, ["zones"]);
    } else {
      forall k | k in d.fields ensures NullFree(d.fields[k]) {
        forall path ensures !NullAt(d.fields[k], path) {}
      }
      NullFreeObject(d);
    }
  }

  lemma {:induction false} MetaFrame(src: Nrt, dst: Nrt)
    requires Valid(src) && Valid(dst) && Edits(src, dst)
    ensures Diff(EncodeMeta(src), EncodeMeta(dst)).fields.Keys <= {"annotations", "ownerReferences"}
    ensures NullFree(Diff(EncodeMeta(src), EncodeMeta(dst)))
  {
    var d := Diff(EncodeMeta(src), EncodeMeta(dst));
    DiffAnnotations(src, dst);
    forall k | k in d.fields ensures k in {"annotations", "ownerReferences"} && NullFree(d.fields[k]) {
      DiffAt(EncodeMeta(src), EncodeMeta(dst), k);
      MetaAt(src, k);
      MetaAt(dst, k);
      if k == "annotations" {
        StringsNullFree(Changed(src.annotations, dst.annotations));
      } else {
        forall path ensures !NullAt(d.fields[k], path) {}
      }
    }
    NullFreeObject(d);
  }

  lemma {:induction false} StringsNullFree(m: map<string, string>)
    ensures NullFree(Strings(m))
  {
    forall k | k in Strings(m).fields ensures NullFree(Strings(m).fields[k]) {
      forall path ensures !NullAt(Strings(m).fields[k], path) {}
    }
    NullFreeObject(Strings(m));
  }
}
