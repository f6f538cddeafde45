/**
 * The evolution walker of `pokemonEvolutions`: starting at the chain's root
 * it emits one `Evolution` per node and moves to the first entry of
 * `evolves_to` until a node has none, so only the first-listed branch is
 * ever followed.  Each node's species id is the last path segment of its
 * species URL, and a sprite URL is built from a non-zero id.
 *
 * The decoded chain is a finite tree; the source re-decodes `evolves_to[0]`
 * at each step, which here is simply moving to the first child.
 */
module Evolutions {
  import opened GoTypes
  import opened Wrappers
  import opened Strconv
  import opened Strs

  /** Directory of the official artwork sprites; the id and `.png` follow. */
  const SPRITE_PREFIX: string := "https://raw.githubusercontent.com/PokeAPI/sprites/master/sprites/pokemon/other/official-artwork/"
  const SPRITE_SUFFIX: string := ".png"

  /** A node of the decoded chain: `species.{name,url}` and `evolves_to`. */
  datatype Node = Node(speciesName: string, speciesUrl: string, evolvesTo: seq<Node>)

  /** One emitted lineage step; id 0 means the URL gave no id. */
  datatype Evolution = Evolution(name: string, id: uint64, image: string)

  /**
   * The species id: trailing slashes trimmed, the last `/`-separated part
   * parsed as a decimal `uint64`, and 0 when that fails.  (`strings.Split`
   * always yields at least one part, so the source's `len(parts) > 0` test
   * always passes.)
   */
  function SpeciesId(url: string): uint64
  {
    ParseUint(LastPart(TrimRight(url, '/'), '/')).GetOr(0)
  }

  /**
   * A URL made of a `/`-terminated prefix, the decimal spelling of `n` and
   * any number of trailing slashes yields `n`.
   */
  lemma SpeciesIdOfCanonicalUrl(prefix: string, n: uint64, slashes: string)
    requires prefix == [] || prefix[|prefix| - 1] == '/'
    requires forall i :: 0 <= i < |slashes| ==> slashes[i] == '/'
    ensures SpeciesId(prefix + FormatUint(n) + slashes) == n
  {
    var digits := FormatUint(n);
    FormatUintSpec(n);
    TrimRightOfPadded(prefix + digits, slashes, '/');
    LastPartAfterSeparator(prefix, digits, '/');
    ParseFormatRoundTrip(n);
  }

  /** A URL of slashes only (the empty URL included) leaves an empty segment and gives id 0. */
  lemma SpeciesIdOfSlashesOnly(url: string)
    requires forall i :: 0 <= i < |url| ==> url[i] == '/'
    ensures SpeciesId(url) == 0
  {
    TrimRightSpec(url, '/');
  }

  /**
   * A last segment holding a non-digit (a sign, a letter), or digits whose
   * value exceeds 2^64 - 1, gives id 0, whatever trailing slashes follow it.
   */
  lemma SpeciesIdOfUnparsable(prefix: string, word: string, slashes: string)
    requires prefix == [] || prefix[|prefix| - 1] == '/'
    requires word != [] && '/' !in word
    requires !AllDigits(word) || DecimalValue(word) >= TWO_TO_THE_64
    requires forall i :: 0 <= i < |slashes| ==> slashes[i] == '/'
    ensures SpeciesId(prefix + word + slashes) == 0
  {
    TrimRightOfPadded(prefix + word, slashes, '/');
    LastPartAfterSeparator(prefix, word, '/');
  }

  /** The sprite URL: empty for id 0, otherwise prefix, decimal id and `.png`. */
  function ImageUrl(id: uint64): string
  {
    if id > 0 then SPRITE_PREFIX + FormatUint(id) + SPRITE_SUFFIX else []
  }

  /**
   * The sprite URL is empty exactly for id 0; otherwise it is the sprite
   * directory, then a file stem that parses back to the id, then `.png`.
   */
  lemma ImageUrlRoundTrip(id: uint64)
    ensures ImageUrl(id) == [] <==> id == 0
    ensures id != 0 ==>
      var u := ImageUrl(id);
      |u| > |SPRITE_PREFIX| + |SPRITE_SUFFIX| &&
      u[..|SPRITE_PREFIX|] == SPRITE_PREFIX &&
      u[|u| - |SPRITE_SUFFIX|..] == SPRITE_SUFFIX &&
      ParseUint(u[|SPRITE_PREFIX|..|u| - |SPRITE_SUFFIX|]) == Success(id)
  {
    if id != 0 {
      var digits := FormatUint(id);
      FormatUintSpec(id);
      ParseFormatRoundTrip(id);
      var u := ImageUrl(id);
      assert u[|SPRITE_PREFIX|..|u| - |SPRITE_SUFFIX|] == digits;
    }
  }

  /** The `Evolution` emitted for one visited node. */
  function EvolutionOf(n: Node): Evolution
  {
    var id := SpeciesId(n.speciesUrl);
    Evolution(n.speciesName, id, ImageUrl(id))
  }

  /** The nodes the walk visits: the node itself, then its first child's path. */
  function FirstPath(n: Node): (p: seq<Node>)
    ensures |p| >= 1 && p[0] == n
  {
    if n.evolvesTo == [] then [n] else [n] + FirstPath(n.evolvesTo[0])
  }

  /** A chain of nodes where each is the first child of the one before, ending at a leaf. */
  predicate IsFirstChildChain(p: seq<Node>)
  {
    |p| >= 1 &&
    (forall i :: 0 <= i < |p| - 1 ==> p[i].evolvesTo != [] && p[i + 1] == p[i].evolvesTo[0]) &&
    p[|p| - 1].evolvesTo == []
  }

  /** The visited path starts at the node, steps to first children only and stops at a leaf. */
  lemma {:induction false} FirstPathIsFirstChildChain(n: Node)
    ensures IsFirstChildChain(FirstPath(n))
  {
    if n.evolvesTo != [] {
      FirstPathIsFirstChildChain(n.evolvesTo[0]);
    }
  }

  /** ... and it is the only such chain from the node: siblings never appear. */
  lemma {:induction false} FirstChildChainUnique(p: seq<Node>)
    requires IsFirstChildChain(p)
    ensures FirstPath(p[0]) == p
  {
    if |p| > 1 {
      var rest := p[1..];
      assert IsFirstChildChain(rest) by {
        forall i | 0 <= i < |rest| - 1
          ensures rest[i].evolvesTo != [] && rest[i + 1] == rest[i].evolvesTo[0]
        {
          assert rest[i] == p[i + 1] && rest[i + 1] == p[i + 2];
        }
      }
      FirstChildChainUnique(rest);
      assert p == [p[0]] + rest;
    }
  }

  /**
   * The body of one loop iteration before the move: extract the id, build
   * the sprite URL only for a non-zero id, and emit the step.
   */
  method Visit(node: Node) returns (e: Evolution)
    ensures e == EvolutionOf(node)
    ensures e.image == [] <==> e.id == 0
  {
    var spid := ParseUint(LastPart(TrimRight(node.speciesUrl, '/'), '/')).GetOr(0);
    var img := "";
    if spid > 0 {
      img := SPRITE_PREFIX + FormatUint(spid) + SPRITE_SUFFIX;
    }
    e := Evolution(node.speciesName, spid, img);
    ImageUrlRoundTrip(spid);
  }

  /**
   * The walk loop: one `Evolution` per node on the first-child path from
   * the root, in path order, so never empty and root first.
   */
  method Walk(root: Node) returns (out: seq<Evolution>)
    ensures |out| == |FirstPath(root)| >= 1
    ensures forall i :: 0 <= i < |out| ==> out[i] == EvolutionOf(FirstPath(root)[i])
  {
    out := [];
    var node := root;
    ghost var path := FirstPath(root);
    while true
      invariant |out| < |path| && path[|out|..] == FirstPath(node) && path[|out|] == node
      invariant forall i :: 0 <= i < |out| ==> out[i] == EvolutionOf(path[i])
      decreases node
    {
      ghost var k := |out|;
      var e := Visit(node);
      out := out + [e];
      if node.evolvesTo == [] {
        return;
      }
      PathStep(path, k, node);
      node := node.evolvesTo[0];
    }
  }

  /** Past a node that has a child, the rest of its path is the child's path. */
  lemma PathStep(path: seq<Node>, k: nat, node: Node)
    requires k < |path| && path[k..] == FirstPath(node)
    requires node.evolvesTo != []
    ensures k + 1 < |path| && path[k + 1..] == FirstPath(node.evolvesTo[0])
    ensures path[k + 1] == node.evolvesTo[0]
  {
    assert path[k + 1..] == path[k..][1..];
  }

  const SPECIES_BASE: string := "https://pokeapi.co/api/v2/pokemon-species/"

  /** The catalogue's URL shape: a numeric last segment followed by one slash. */
  lemma SpeciesIdExampleNumeric()
    ensures SpeciesId(SPECIES_BASE + "25/") == 25
    ensures ImageUrl(25) == SPRITE_PREFIX + "25.png"
  {
    var digits := FormatUint(25);
    assert digits == "25";
    SpeciesIdOfCanonicalUrl(SPECIES_BASE, 25, "/");
    assert SPECIES_BASE + digits + "/" == SPECIES_BASE + "25/";
  }

  /** The empty URL yields id 0 and no image. */
  lemma SpeciesIdExampleEmpty()
    ensures SpeciesId("") == 0 && ImageUrl(0) == ""
  {}

  /** A name or a signed number in the last segment yields id 0. */
  lemma SpeciesIdExampleNonNumeric()
    ensures SpeciesId(SPECIES_BASE + "pikachu/") == 0
    ensures SpeciesId(SPECIES_BASE + "+25/") == 0
  {
    assert !IsDigit("pikachu"[0]) && !IsDigit("+25"[0]);
    SpeciesIdOfUnparsable(SPECIES_BASE, "pikachu", "/");
    assert SPECIES_BASE + "pikachu" + "/" == SPECIES_BASE + "pikachu/";
    SpeciesIdOfUnparsable(SPECIES_BASE, "+25", "/");
    assert SPECIES_BASE + "+25" + "/" == SPECIES_BASE + "+25/";
  }

  /**
   * An unbranched three-step chain is visited whole and in order; at a
   * branch only the first-listed child is followed.
   */
  lemma PathExamples(a: Node, b: Node, c: Node, d: Node)
    requires c.evolvesTo == [] && d.evolvesTo == []
    requires b.evolvesTo == [c] && a.evolvesTo == [b]
    ensures FirstPath(a) == [a, b, c]
    ensures FirstPath(Node(a.speciesName, a.speciesUrl, [c, d])) == [Node(a.speciesName, a.speciesUrl, [c, d]), c]
  {}
}
