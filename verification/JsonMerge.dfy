/** JSON merge patch (section 2 of RFC 7396), applied in place to a configuration document. */
module JsonMerge {
  import opened Wrappers

  /** Numbers, strings and booleans are told apart by their text only. */
  datatype Json =
    | Null
    | Scalar(text: string)
    | Array(items: seq<Json>)
    | Object(members: map<string, Json>)

  /** The member of an object, Null for a missing one or for a target that is not an object. */
  function Member(doc: Json, key: string): Json {
    if doc.Object? && key in doc.members then doc.members[key] else Null
  }

  function Members(doc: Json): map<string, Json> {
    if doc.Object? then doc.members else map[]
  }

  /** The recursive MergePatch function of section 2 of RFC 7396. */
  function MergePatch(target: Json, patch: Json): Json
    decreases patch
  {
    if !patch.Object? then patch
    else
      var t := Members(target);
      Object(map k | k in t.Keys + patch.members.Keys && (k in patch.members ==> patch.members[k] != Null) ::
        if k in patch.members then MergePatch(Member(target, k), patch.members[k]) else t[k])
  }

  /** `json_merge`: whatever order the members of the patch are visited in, the result is MergePatch. */
  method Merge(target: Json, patch: Json) returns (doc: Json)
    ensures doc == MergePatch(target, patch)
    decreases patch
  {
    if !patch.Object? {
      return patch;
    }
    doc := target;
    if !doc.Object? {
      doc := Object(map[]);
    }
    ghost var t := Members(target);
    var todo := patch.members.Keys;
    while todo != {}
      invariant todo <= patch.members.Keys && doc.Object?
      invariant doc.members.Keys ==
                set k | k in t.Keys + patch.members.Keys &&
                        (k in patch.members && k !in todo ==> patch.members[k] != Null) &&
                        (k in todo ==> k in t)
      invariant forall k <- doc.members ::
                  doc.members[k] ==
                  if k in patch.members && k !in todo then MergePatch(Member(target, k), patch.members[k]) else t[k]
      decreases todo
    {
      var key :| key in todo;
      var value := patch.members[key];
      if value == Null {
        doc := Object(doc.members - {key});
      } else {
        var entry := if key in doc.members then doc.members[key] else Null;
        var merged := Merge(entry, value);
        doc := Object(doc.members[key := merged]);
      }
      todo := todo - {key};
    }
  }

  /** Members the patch does not name are left alone. */
  lemma UnnamedMembersAreKept(target: Json, patch: Json, key: string)
    requires patch.Object? && key !in patch.members
    ensures Member(MergePatch(target, patch), key) == Member(target, key)
    ensures key in MergePatch(target, patch).members <==> key in Members(target)
  {
  }

  // ------------------------------------------------------------------
  // The result, place by place
  // ------------------------------------------------------------------

  /** What a document holds at a path of keys, if anything. */
  function At(doc: Json, path: seq<string>): Option<Json>
    decreases |path|
  {
    if path == [] then Some(doc)
    else if doc.Object? && path[0] in doc.members then At(doc.members[path[0]], path[1..])
    else None
  }

  /** Following the path through objects, the patch comes to a key that it does not name. */
  predicate Passes(patch: Json, path: seq<string>)
    decreases |path|
  {
    path != [] && patch.Object? && (path[0] !in patch.members || Passes(patch.members[path[0]], path[1..]))
  }

  lemma MemberAt(doc: Json, path: seq<string>)
    requires path != []
    ensures At(Member(doc, path[0]), path[1..]) ==
            if doc.Object? && path[0] in doc.members then At(doc, path) else At(Null, path[1..])
  {
  }

  /** What the patch does not name stays as it was, at every depth. */
  lemma {:induction false} PassedPlacesAreKept(target: Json, patch: Json, path: seq<string>)
    requires Passes(patch, path)
    ensures At(MergePatch(target, patch), path) == At(target, path)
    decreases |path|
  {
    var key, rest := path[0], path[1..];
    if key in patch.members {
      PassedPlacesAreKept(Member(target, key), patch.members[key], rest);
      MemberAt(target, path);
      assert At(MergePatch(target, patch), path) == At(MergePatch(Member(target, key), patch.members[key]), rest);
    }
  }

  /** A value that is neither an object nor null is put where the patch has it, at every depth. */
  lemma {:induction false} ValuesAreSet(target: Json, patch: Json, path: seq<string>)
    requires At(patch, path).Some? && !At(patch, path).value.Object? && At(patch, path).value != Null
    ensures At(MergePatch(target, patch), path) == At(patch, path)
    decreases |path|
  {
    if path != [] {
      ValuesAreSet(Member(target, path[0]), patch.members[path[0]], path[1..]);
    }
  }

  /** A null takes away the member it stands for, at every depth. */
  lemma {:induction false} NullsTakeAway(target: Json, patch: Json, path: seq<string>)
    requires path != [] && At(patch, path) == Some(Null)
    ensures At(MergePatch(target, patch), path) == None
    decreases |path|
  {
    if |path| > 1 {
      NullsTakeAway(Member(target, path[0]), patch.members[path[0]], path[1..]);
    }
  }

  /** An object in the patch is merged into what the target has there, at every depth. */
  lemma {:induction false} ObjectsAreMerged(target: Json, patch: Json, path: seq<string>)
    requires At(patch, path).Some? && At(patch, path).value.Object?
    ensures var old_ := At(target, path);
            At(MergePatch(target, patch), path) ==
            Some(MergePatch(if old_.Some? then old_.value else Null, At(patch, path).value))
    decreases |path|
  {
    if path != [] {
      ObjectsAreMerged(Member(target, path[0]), patch.members[path[0]], path[1..]);
      MemberAt(target, path);
      if !(target.Object? && path[0] in target.members) {
        MissingIsNull(path[1..]);
      }
    }
  }

  lemma MissingIsNull(path: seq<string>)
    ensures path != [] ==> At(Null, path) == None
  {
  }

  /** Applying a patch twice is applying it once. */
  lemma {:induction false} MergeIsIdempotent(target: Json, patch: Json)
    ensures MergePatch(MergePatch(target, patch), patch) == MergePatch(target, patch)
    decreases patch
  {
    if patch.Object? {
      var once := MergePatch(target, patch);
      var twice := MergePatch(once, patch);
      forall k | k in once.members
        ensures twice.members[k] == once.members[k]
      {
        if k in patch.members {
          MergeIsIdempotent(Member(target, k), patch.members[k]);
        }
      }
      assert twice.members == once.members;
    }
  }

  /** No object member outside arrays is null. */
  predicate NullFree(doc: Json) {
    doc.Object? ==> forall k <- doc.members :: doc.members[k] != Null && NullFree(doc.members[k])
  }

  /** An object patch keeps a document free of null members; a missing or scalar target becomes so. */
  lemma {:induction false} MergeKeepsNullFree(target: Json, patch: Json)
    requires NullFree(target) && patch.Object?
    ensures NullFree(MergePatch(target, patch))
    decreases patch
  {
    var doc := MergePatch(target, patch);
    forall k | k in doc.members
      ensures doc.members[k] != Null && NullFree(doc.members[k])
    {
      if k in patch.members {
        assert doc.members[k] == MergePatch(Member(target, k), patch.members[k]);
        if patch.members[k].Object? {
          assert NullFree(Member(target, k));
          MergeKeepsNullFree(Member(target, k), patch.members[k]);
        }
      } else {
        assert doc.members[k] == target.members[k];
      }
    }
  }

  /** The patch that turns one null-free document into another. */
  function Diff(base: Json, goal: Json): Json
    decreases goal
  {
    if !goal.Object? then goal
    else
      Object(map k | k in Members(base).Keys + goal.members.Keys ::
        if k in goal.members then Diff(Member(base, k), goal.members[k]) else Null)
  }

  /** Every null-free document can be reached from every other one by a merge patch. */
  lemma {:induction false} EveryDocumentIsReachable(base: Json, goal: Json)
    requires NullFree(goal)
    ensures MergePatch(base, Diff(base, goal)) == goal
    decreases goal
  {
    if goal.Object? {
      var patch := Diff(base, goal);
      var doc := MergePatch(base, patch);
      forall k | k in goal.members
        ensures k in doc.members && doc.members[k] == goal.members[k]
      {
        EveryDocumentIsReachable(Member(base, k), goal.members[k]);
      }
      assert doc.members == goal.members;
    }
  }
}
