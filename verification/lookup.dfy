/** The requirement lookup of `check_reqs_vs_cad`: requirements indexed by their `name`. */
module RequirementLookup {
  import opened Records

  /** A requirement enters the lookup when its `attributes` mapping is present and non-empty. */
  predicate Indexed(r: Requirement) {
    r.attributes.Some? && |r.attributes.value| > 0
  }

  /** No indexed requirement after position `i` shares its name. */
  ghost predicate LastOfItsName(reqs: seq<Requirement>, i: int)
    requires 0 <= i < |reqs|
  {
    forall j :: i < j < |reqs| && Indexed(reqs[j]) ==> reqs[j].name != reqs[i].name
  }

  /** The dictionary comprehension over the requirements in iteration order: each indexed
      requirement is stored under its name, overwriting an earlier namesake. */
  function BuildLookup(reqs: seq<Requirement>): map<Option<string>, Requirement> {
    if reqs == [] then map[]
    else
      var last := reqs[|reqs| - 1];
      if Indexed(last) then BuildLookup(reqs[..|reqs| - 1])[last.name := last]
      else BuildLookup(reqs[..|reqs| - 1])
  }

  /** The lookup holds exactly the names of indexed requirements; each name maps to an indexed
      requirement carrying it, and to the last such one in iteration order. */
  lemma {:induction false} LookupIsLastWins(reqs: seq<Requirement>)
    ensures forall i :: 0 <= i < |reqs| && Indexed(reqs[i]) ==> reqs[i].name in BuildLookup(reqs)
    ensures forall k :: k in BuildLookup(reqs) ==>
              exists i :: 0 <= i < |reqs| && Indexed(reqs[i]) && reqs[i].name == k && BuildLookup(reqs)[k] == reqs[i]
    ensures forall i :: 0 <= i < |reqs| && Indexed(reqs[i]) && LastOfItsName(reqs, i) ==>
              BuildLookup(reqs)[reqs[i].name] == reqs[i]
  {
    if reqs != [] {
      var init, last := reqs[..|reqs| - 1], reqs[|reqs| - 1];
      LookupIsLastWins(init);
      var m := BuildLookup(reqs);
      assert forall i :: 0 <= i < |init| ==> init[i] == reqs[i];
      forall k | k in m
        ensures exists i :: 0 <= i < |reqs| && Indexed(reqs[i]) && reqs[i].name == k && m[k] == reqs[i]
      {
        if Indexed(last) && k == last.name {
          assert m[k] == reqs[|reqs| - 1];
        } else {
          assert k in BuildLookup(init);
          var i :| 0 <= i < |init| && Indexed(init[i]) && init[i].name == k && BuildLookup(init)[k] == init[i];
          assert m[k] == reqs[i];
        }
      }
      forall i | 0 <= i < |reqs| && Indexed(reqs[i]) && LastOfItsName(reqs, i)
        ensures m[reqs[i].name] == reqs[i]
      {
        if i < |init| {
          assert LastOfItsName(init, i);
        }
      }
    }
  }

  /** `float(lookup.get(name, {}).get("attributes", {}).get(field, 0))` */
  function LookupTarget(lookup: map<Option<string>, Requirement>, name: string, field: string): real {
    if Some(name) in lookup then FieldOrZero(Attributes(lookup[Some(name)]), field) else 0.0
  }

  /** A name that no indexed requirement carries reads a zero target, whatever requirements
      without attributes carry that name. */
  lemma UnindexedNameReadsZero(reqs: seq<Requirement>, name: string, field: string)
    requires forall i :: 0 <= i < |reqs| && reqs[i].name == Some(name) ==> !Indexed(reqs[i])
    ensures LookupTarget(BuildLookup(reqs), name, field) == 0.0
  {
    LookupIsLastWins(reqs);
  }

  /** The target read for a name comes from the last indexed requirement with that name. */
  lemma LookupTargetFromLastNamesake(reqs: seq<Requirement>, i: int, field: string)
    requires 0 <= i < |reqs| && Indexed(reqs[i]) && reqs[i].name.Some?
    requires LastOfItsName(reqs, i)
    ensures LookupTarget(BuildLookup(reqs), reqs[i].name.value, field) == FieldOrZero(reqs[i].attributes.value, field)
  {
    LookupIsLastWins(reqs);
  }
}
