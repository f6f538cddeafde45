/**
 * The display-name choice of `pokemonName`: the first French entry of the
 * species' name list, or else the generic name from the second lookup.
 * The two HTTP lookups and their JSON decoding are not part of this model;
 * their outcomes are parameters.
 */
module Names {
  import opened Wrappers

  /** The language tag searched for. */
  const FRENCH: string := "fr"

  /** One decoded element of the species' `names` list. */
  datatype NameEntry = NameEntry(name: string, language: string)

  /** Why a catalogue lookup produced no value. */
  datatype CatalogError = RequestFailed | DecodeFailed

  /** Entry `i` is French and no earlier entry is. */
  predicate IsFirstFrench(names: seq<NameEntry>, i: int)
  {
    0 <= i < |names| && names[i].language == FRENCH &&
    forall j :: 0 <= j < i ==> names[j].language != FRENCH
  }

  predicate HasNoFrench(names: seq<NameEntry>)
  {
    forall i :: 0 <= i < |names| ==> names[i].language != FRENCH
  }

  /** At most one entry is the first French one. */
  lemma FirstFrenchUnique(names: seq<NameEntry>, i: int, k: int)
    requires IsFirstFrench(names, i) && IsFirstFrench(names, k)
    ensures i == k
  {}

  /** The search loop: the lowest-index French name, or none. */
  method FindFrenchName(names: seq<NameEntry>) returns (r: Option<string>)
    ensures r.None? <==> HasNoFrench(names)
    ensures r.Some? ==> exists i :: IsFirstFrench(names, i) && r.value == names[i].name
  {
    var i := 0;
    while i < |names|
      invariant 0 <= i <= |names|
      invariant forall j :: 0 <= j < i ==> names[j].language != FRENCH
    {
      if names[i].language == FRENCH {
        assert IsFirstFrench(names, i);
        return Some(names[i].name);
      }
      i := i + 1;
    }
    return None;
  }

  /**
   * `pokemonName` after its lookups: a failed species lookup is the error;
   * a French entry wins; only when there is none is the fallback lookup's
   * outcome, name or error, used.
   */
  method PokemonName(species: Result<seq<NameEntry>, CatalogError>, fallback: Result<string, CatalogError>)
    returns (r: Result<string, CatalogError>)
    ensures species.Failure? ==> r == Failure(species.error)
    ensures species.Success? ==> forall i :: IsFirstFrench(species.value, i) ==> r == Success(species.value[i].name)
    ensures species.Success? && HasNoFrench(species.value) ==> r == fallback
  {
    if species.Failure? {
      return Failure(species.error);
    }
    var french := FindFrenchName(species.value);
    if french.Some? {
      return Success(french.value);
    }
    return fallback;
  }
}
