# QuelPoke core, modelled in Dafny

QuelPoke is a small web page that turns any name typed by a visitor into one
of the 151 first-generation Pokémon and shows it. Four pieces of decision
logic sit in `main.go` beside the HTTP and template plumbing, and this
project models them on already-decoded values:

- **Identifier resolver** (`pokemonID`). The name's SHA-1 digest is taken.
  Its first eight bytes are read as a big-endian unsigned 64-bit number `h`.
  The identifier is `h % m + 1`. The digest is an uninterpreted 20-byte
  input (module `Identifier`).
- **Stat builder** (the loop in `pokemonStats`). Each decoded
  `(base_stat, stat.name)` record becomes a `Stat` row, in the decoded order.
  The percentage is 0 for a non-positive base and `base * 100 / 255`
  otherwise (module `Stats`). Go's `int` is 64 bits wide on a 64-bit
  platform, so the product wraps and the quotient truncates toward zero. Both are written out in
  module `GoTypes`.
- **Display-name choice** (`pokemonName`). The first entry of the species'
  name list whose language is `fr` wins. Only when there is none is the
  generic name from the second lookup used. The outcomes of both lookups
  are parameters (module `Names`).
- **Evolution walker** (the loop in `pokemonEvolutions`). The decoded chain
  is the tree `Node(speciesName, speciesUrl, evolvesTo)`. The walk emits one
  `Evolution` per node and always moves to the first child, until a node
  has no children. A node's id is the last `/`-separated segment of its
  species URL after trailing slashes are trimmed, parsed as a decimal
  `uint64`, and 0 on failure. The sprite URL is built only for a non-zero
  id (modules `Strs`, `Strconv`, `Evolutions`).

Facts the proofs establish about these pieces:

- The identifier lies in `[1, m]` for every digest and every `m >= 1`.
- The value reduced is the weighted sum of the first eight digest bytes,
  most significant first.
- Percentages stay in `[0, 100]` for bases in `[0, 255]`, with 100 → 39 and
  255 → 100. There is no clamp, but 256 and 257 still truncate to 100.
  From base 258 up to `MAX_EXACT_BASE` = 92233720368547758 (the largest
  base whose product fits in an int64) the percentage exceeds 100.
- Just past `MAX_EXACT_BASE`, the int64 product wraps and the percentage
  is negative.
- The walk's output is one step per node of the first-child path, in path
  order. That path is the only chain from the root that steps to first
  children and ends at a leaf, so sibling branches never appear.
- `%d` formatting and `ParseUint` are inverse to each other. So the file
  stem of a sprite URL parses back to its id, and a catalogue URL
  `…/25/` yields 25.

Two things `main.go` does not do, and the model does not do either:

- `main.go` bounds neither the walk's depth nor the set of visited URLs.
  The model has no bound. It terminates because a decoded JSON chain is a
  finite tree (structural recursion on `Node`), and a cyclic chain cannot
  be represented.
- `main.go` neither clamps the percentage nor bounds the base.

## Model

| member | source | states |
|---|---|---|
| `GoTypes.Wrap64` | main.go:212 | the int64 value of an exact product is congruent to it modulo 2^64 and equal to it when it fits, as Go's wrapping `*` on `int` |
| `GoTypes.TruncDiv` | main.go:212 | Go's `/`: `a == q*b + rem` with `abs(rem) < b` and the remainder carrying the sign of `a`; `q` lies between 0 and `a` |
| `Identifier.BigEndianFold` | main.go:123 | folding `n` bytes most-significant first gives a value below `256^n` |
| `Identifier.FoldIsWeightedSum` | main.go:123 | the Horner fold equals the sum of `b[k] * 256^(n-1-k)` for every byte string |
| `Identifier.ReadUint64BE` | main.go:123 | `binary.BigEndian.Uint64` reads exactly the first eight bytes, `b[0]*2^56 + … + b[7]`, and fits in a uint64 |
| `Identifier.PokemonId` | main.go:120-124 | for every digest and every `m >= 1` the identifier lies in `[1, m]` and minus one is the big-endian value of the first eight digest bytes modulo `m` |
| `Identifier.EveryCatalogIdReachable` | main.go:79 | with the catalogue size 151 the handler passes, every identifier in `[1, 151]` is produced by some digest |
| `Identifier.OnlyPrefixMatters` | main.go:123 | two digests that agree on their first eight bytes give the same identifier |
| `Stats.Percent` | main.go:210-213 | 0 for a non-positive base; for a base whose product does not overflow, the floor of `base*100/255`; within `[0, 100]` for bases in `[0, 255]` |
| `Stats.PercentExamples` | main.go:210-213 | 0 → 0, -5 → 0, 1 → 0, 100 → 39, 255 → 100, 256 → 100, 258 → 101 (truncation, not rounding) |
| `Stats.PercentAbove100` | main.go:210-213 | without a clamp, the percentage exceeds 100 exactly when the base is at least 258 |
| `Stats.PercentWrapsNegative` | main.go:212 | one past `MAX_EXACT_BASE` the int64 product wraps and the percentage is negative |
| `Stats.StatOf` | main.go:210-214 | contract given by `Stats.BuildStats`, row by row, and by `Stats.Percent` |
| `Stats.BuildStats` | main.go:208-216 | one row per decoded record, same length and order, name and base copied, percentage computed; all percentages in `[0, 100]` when all bases are in `[0, 255]` |
| `Names.FirstFrenchUnique` | main.go:152-157 | at most one index is the first French entry |
| `Names.FindFrenchName` | main.go:152-157 | none exactly when no entry's language is `fr`; otherwise the name of the lowest-index `fr` entry |
| `Names.PokemonName` | main.go:126-180 | a failed species lookup is the error; a French entry wins whatever the fallback lookup would give; the fallback's name or error is the result only when no entry is French |
| `Strs.TrimRight` | main.go:296 | contract given by `Strs.TrimRightSpec` |
| `Strs.TrimRightSpec` | main.go:296 | the result is a prefix of the input that does not end in `/`, and everything cut off is `/` |
| `Strs.Split` | main.go:297-299 | there is always at least one part, so the `len(parts) > 0` test always passes |
| `Strs.SplitJoin` | main.go:297 | no part contains the separator, and joining the parts with the separator gives the input back |
| `Strs.LastPart` | main.go:297-300 | contract given by `Strs.LastPartIsFinalSegment` and `Strs.LastPartAfterSeparator` |
| `Strs.LastPartIsFinalSegment` | main.go:297-300 | `parts[len(parts)-1]` is the suffix without separators that is the whole input or follows a separator |
| `Strs.LastPartAfterSeparator` | main.go:297-300 | after a prefix that is empty or ends in `/`, the last part is the separator-free word that follows |
| `Strs.TrimRightOfPadded` | main.go:296 | trimming a string not ending in `/` followed by slashes gives that string back |
| `Strconv.ParseUint` | main.go:300 | modelled on Go's digit loop with its cutoff and wrap tests, it succeeds exactly on non-empty all-digit strings whose value is below 2^64 and then yields that value; an all-digit string above 2^64 - 1 is a range error |
| `Strconv.ParseDigitsSpec` | main.go:300 | from a digit prefix of value `n`, the loop succeeds exactly when the rest is digits and the whole value fits, yields that value, and fails on all-digit input only by overflow |
| `Strconv.WrapStep` | main.go:300 | below the cutoff one more digit wraps at most once, and the `n1 < n` test fires exactly on overflow |
| `Strconv.ParseUintExamples` | main.go:300 | `"007"` gives 7; `""`, `"+1"` and `"0x1"` are syntax errors |
| `Strconv.FormatUint` | main.go:306 | contract given by `Strconv.FormatUintSpec` and the two round-trip lemmas |
| `Strconv.FormatUintSpec` | main.go:306 | `%d` gives a non-empty digit string denoting the number, with no leading zero unless it is "0" |
| `Strconv.ParseFormatRoundTrip` | main.go:300-306 | parsing what `%d` prints gives the id back |
| `Strconv.FormatParseRoundTrip` | main.go:300-306 | formatting a parsed value gives the text back when it has no leading zero |
| `Evolutions.SpeciesId` | main.go:296-303 | contract given by `Evolutions.SpeciesIdOfCanonicalUrl`, `SpeciesIdOfSlashesOnly` and `SpeciesIdOfUnparsable` |
| `Evolutions.SpeciesIdOfCanonicalUrl` | main.go:296-303 | a URL ending in a `/`-preceded decimal spelling of `n` and any number of slashes yields id `n` |
| `Evolutions.SpeciesIdOfSlashesOnly` | main.go:296-303 | the empty URL, or one of slashes only, leaves an empty segment and yields id 0 |
| `Evolutions.SpeciesIdOfUnparsable` | main.go:296-303 | a last segment with a non-digit (a sign included) or a value above 2^64 - 1 yields id 0 |
| `Evolutions.SpeciesIdExampleNumeric` | main.go:296-307 | `…/pokemon-species/25/` yields 25 and the sprite `…/official-artwork/25.png` |
| `Evolutions.SpeciesIdExampleEmpty` | main.go:296-307 | the empty URL yields id 0 and an empty image URL |
| `Evolutions.SpeciesIdExampleNonNumeric` | main.go:296-303 | `…/pikachu/` and `…/+25/` yield id 0 |
| `Evolutions.ImageUrl` | main.go:304-307 | contract given by `Evolutions.ImageUrlRoundTrip` |
| `Evolutions.ImageUrlRoundTrip` | main.go:304-307 | the image URL is empty exactly for id 0; otherwise it is the sprite directory, a stem that parses back to the id, and `.png` |
| `Evolutions.EvolutionOf` | main.go:294-308 | contract given by `Evolutions.Visit`, which computes it step by step and shows the image is empty exactly when the id is 0 |
| `Evolutions.Visit` | main.go:294-308 | the step emitted for a node is its species name, its URL's id and that id's image URL, and the image is empty exactly when the id is 0 |
| `Evolutions.FirstPath` | main.go:291-337 | the visited path is never empty and starts at the chain root |
| `Evolutions.FirstPathIsFirstChildChain` | main.go:310-336 | each later node on the path is the first child of the one before, and the last node has no children |
| `Evolutions.FirstChildChainUnique` | main.go:310-336 | any chain from a node that steps to first children and ends at a leaf is that node's visited path, so siblings never appear |
| `Evolutions.Walk` | main.go:290-340 | the loop emits exactly one step per node of the first-child path from the root, step `i` being the one for node `i`, so the output is never empty and starts with the root |
| `Evolutions.PathExamples` | main.go:310-336 | an unbranched three-node chain is visited whole and in order; at a node with two children only the first is visited |

## Left out

- The SHA-1 computation (main.go:121-122) is a library call. The digest is an uninterpreted 20-byte input.
- All HTTP requests and JSON decoding (main.go:128-150, 160-177, 184-206, 241-289) are network I/O and library parsing. The model takes the decoded records and the decoded chain as inputs. For `pokemonName`, the outcome of each lookup (value or error) is a parameter.
- The JSON re-encoding of `evolves_to[0]` (main.go:330-333) only re-shapes the child node and is modelled as moving to the first child. Its error `break` cannot be reached for a decoded tree.
- The `len(parts) > 0` guard (main.go:299) always holds, because `strings.Split` returns at least one part (`Strs.Split` proves this). The model takes the last part without the guard.
- `radarPath` (main.go:220-236) is floating-point trigonometry and `%.2f` formatting, which Dafny does not model.
- `index`, `main` and `env` (main.go:46-116) are left out. They cover template parsing and execution, logging, timing, environment configuration, and the routing that turns a failed stats or chain fetch into an empty section.
- SpeciesId: its meaning is stated by the lemmas on canonical, unparsable and slash-only URLs. A segment with leading zeros (`…/007/` → 7) is covered only through `Strconv.ParseUint` and `Strconv.ParseUintExamples`, with no lemma of its own.
- Strconv.ParseUint: which error a string that both overflows and holds a bad character gets depends on which comes first, as in Go; the contract names the error only for all-digit input (range) and leaves the mixed case to the definition.
