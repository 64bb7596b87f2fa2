/**
 * The identifier loop of create_internal_blink_account (src/routes/internal.rs):
 * every raw identifier is parsed, modifiers and repeats are refused, and what
 * is left can be inserted without tripping the unique constraint.
 */
module InternalAccounts {
  import opened Text
  import opened AccountStore
  import opened Identifiers

  datatype RequestError = InvalidRequest | InvalidIdentifier | ModifierNotAllowed

  /** The raw identifier is a name without a wallet modifier. */
  predicate Plain(e: Env, raw: string) {
    Parse(e, raw).Ok? && Parse(e, raw).value.wallet.None?
  }

  ghost predicate Repeats(e: Env, raws: seq<string>) {
    exists i, j :: 0 <= i < j < |raws| && Plain(e, raws[i]) && Plain(e, raws[j])
                   && Parse(e, raws[i]).value.canonical == Parse(e, raws[j]).value.canonical
  }

  /** What the loop pushes for a raw identifier. */
  ghost predicate Made(e: Env, domain: string, description: string, raw: string, id: NewIdentifier) {
    && Plain(e, raw)
    && id == NewIdentifier(Name(domain, Parse(e, raw).value.canonical), Parse(e, raw).value.kind, description)
  }

  /** The identifiers made from two raw ones clash exactly when the raw ones do. */
  lemma RepeatsAreClashes(e: Env, domain: string, description: string, raws: seq<string>, ids: seq<NewIdentifier>)
    requires |ids| == |raws| && forall i :: 0 <= i < |raws| ==> Made(e, domain, description, raws[i], ids[i])
    ensures Repeats(e, raws) <==> !DistinctNames(ids)
  {
    if i, j :| 0 <= i < j < |raws| && Plain(e, raws[i]) && Plain(e, raws[j])
               && Parse(e, raws[i]).value.canonical == Parse(e, raws[j]).value.canonical {
      assert Made(e, domain, description, raws[i], ids[i]) && Made(e, domain, description, raws[j], ids[j]);
      assert ids[i].name == ids[j].name;
    }
    if i, j :| 0 <= i < j < |ids| && ids[i].name == ids[j].name {
      assert Made(e, domain, description, raws[i], ids[i]) && Made(e, domain, description, raws[j], ids[j]);
    }
  }

  lemma ClashRepeats(e: Env, domain: string, description: string, raws: seq<string>, j: nat, i: nat,
                     x: NewIdentifier, y: NewIdentifier)
    requires j < i < |raws| && Made(e, domain, description, raws[j], x) && Made(e, domain, description, raws[i], y)
             && x.name == y.name
    ensures Repeats(e, raws)
  {
    assert Plain(e, raws[j]) && Plain(e, raws[i]);
  }

  method BuildIdentifiers(e: Env, domain: string, description: string, raws: seq<string>)
    returns (error: Option<RequestError>, ids: seq<NewIdentifier>)
    ensures error.None? <==> raws != [] && (forall i :: 0 <= i < |raws| ==> Plain(e, raws[i])) && !Repeats(e, raws)
    ensures error == Some(InvalidIdentifier) ==> exists raw :: raw in raws && Parse(e, raw).Err?
    ensures error == Some(ModifierNotAllowed) ==> exists raw :: raw in raws && Parse(e, raw).Ok? && !Plain(e, raw)
    ensures error == Some(InvalidRequest) ==> raws == [] || Repeats(e, raws)
    ensures error.None? ==> |ids| == |raws| && DistinctNames(ids)
    ensures error.None? ==> forall i :: 0 <= i < |raws| ==> Made(e, domain, description, raws[i], ids[i])
  {
    error, ids := None, [];
    if raws == [] { return Some(InvalidRequest), []; }
    var seen: set<Name> := {};
    for i := 0 to |raws|
      invariant |ids| == i && forall j :: 0 <= j < i ==> Made(e, domain, description, raws[j], ids[j])
      invariant seen == set j | 0 <= j < i :: ids[j].name
      invariant DistinctNames(ids)
    {
      var parsed := Parse(e, raws[i]);
      assert parsed.Err? || parsed.value.wallet.Some? ==> !Plain(e, raws[i]);
      if parsed.Err? { return Some(InvalidIdentifier), []; }
      if parsed.value.wallet.Some? { return Some(ModifierNotAllowed), []; }
      var id := NewIdentifier(Name(domain, parsed.value.canonical), parsed.value.kind, description);
      assert Made(e, domain, description, raws[i], id);
      if id.name in seen {
        ghost var j :| 0 <= j < i && ids[j].name == id.name;
        ClashRepeats(e, domain, description, raws, j, i, ids[j], id);
        return Some(InvalidRequest), [];
      }
      seen := seen + {id.name};
      ids := ids + [id];
    }
    RepeatsAreClashes(e, domain, description, raws, ids);
  }
}
