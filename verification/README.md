# cargo-bitbake recipe generation, modelled in Dafny

cargo-bitbake writes a BitBake recipe for a Rust crate. It reads the crate's manifest and
the packages Cargo resolved for it. This project models the logic that turns those inputs
into the recipe's text fields:

- **The per-package translator** (`source_uri.dfy`). The root package and path packages
  contribute nothing. A registry package becomes a `crate://crates.io/<name>/<version>` line
  ending in BitBake's line continuation (space, backslash, newline). A git package's URL
  is cut at its first `:`. `ssh` and `https` URLs are rewritten to `git…;protocol=<scheme>`,
  and any other URL is kept whole. Both forms get `;name=` and `;destsuffix=` parameters.
  Each git package also contributes three extra lines:
  - `SRCREV_FORMAT`;
  - `SRCREV_<name>`, pinned to the tag or revision, to the branch name, or to the literal
    `${{AUTOREV}}` for the branch `master`;
  - `EXTRA_OECARGO_PATHS`.

  Any other kind of source gives its URL plus the continuation.
- **The SRC_URI sort** (`ordering.dfy`): Rust's `String` order (code-point lexicographic)
  and a sort proved to give the unique sorted permutation of its input.
- **The license fields** (`license.dfy`). The license text is split at `/`.
  - LICENSE is the trimmed tokens joined by ` | `.
  - LIC_FILES_CHKSUM has one `file://<file>;md5=<digest>` entry per untrimmed token. The
    file is the token itself if it exists, else `LICENSE-<token>` if that exists, else the
    token. The digest is `generateme` when the file cannot be read or does not exist.
- **The assembler** (`recipe.dfy`):
  - it folds the translator over the resolved packages and sorts the SRC_URI entries;
  - it keeps the extra lines in resolver order;
  - it takes SUMMARY from the description, else the name;
  - it takes HOMEPAGE from the homepage, else the repository, else the empty string;
  - it takes the license text from the license, else the license-file path, else `unknown`;
  - it trims SUMMARY, HOMEPAGE, LICENSE and LIC_FILES_CHKSUM, and writes the name, the
    version, SRC_URI and the extra lines untrimmed;
  - it names the recipe file `<name>_<version>.bb`.

`strings.dfy` holds the string operations: `str::find`, `str::split` (every piece kept,
empty ones included), itertools' `join` and `str::trim`. Trim uses the Unicode White_Space
set. `wrappers.dfy` holds `Option`.

The file system is a parameter. `License.Disk` lists the names that exist and the digest of
each file that can be read.

## Model

| member | source | states |
|---|---|---|
| SourceUri.Translate | src/main.rs:88-152 | A package with the root package's name, whatever its source, and every path package give no SRC_URI entry; every other package gives exactly one. Only non-root git packages give extra lines, and always three. Non-git entries end with the line continuation. A registry package gives its `crate://` line, a git package its rewritten URL and its three extra lines, and any other source its URL followed by the continuation. |
| SourceUri.GitUriOfParts | src/main.rs:106-123 | For a URL cut at its first `:`, `ssh` and `https` become `git` + rest + `;protocol=<scheme>`. Any other scheme keeps the URL unchanged. `;name=<pkg>;destsuffix=<pkg>` follows in both cases. |
| SourceUri.GitUriEndsWithName | src/main.rs:116-122 | A git entry ends with `;destsuffix=<name>`: no continuation is added. |
| SourceUri.GitUriSingleLine | src/main.rs:116-122 | A git entry holds no line end, so in the SRC_URI block the next entry follows on the same line. |
| SourceUri.RegistryUriParts | src/main.rs:94-99 | A registry entry, split at `/`, reads back as `crate:`, an empty piece, `crates.io`, name, and version + continuation. |
| SourceUri.FormatLineParts | src/main.rs:126 | The first extra line, split at quotes, reads back as `SRCREV_FORMAT .= ` and `_<name>`. |
| SourceUri.PinLineParts | src/main.rs:139 | The second extra line reads back as `SRCREV_<name> = ` and the pinned revision. |
| SourceUri.PathLineParts | src/main.rs:141-145 | The third extra line reads back as `EXTRA_OECARGO_PATHS += ` and `${WORKDIR}/<name>`, with single braces. |
| SourceUri.PinnedRevisionKeepsText | src/main.rs:127-137 | The pinned revision is the reference's own text exactly when the reference is not the branch `master`. For `master` it is the literal `${{AUTOREV}}`. |
| Ordering.Sort | src/main.rs:155 | The result is sorted in code-point order and is a permutation of the input. |
| Ordering.SortedUnique | src/main.rs:155 | Two sorted permutations of the same strings are equal, so any correct sort gives the same list. |
| Ordering.SortPermutationInvariant | src/main.rs:155 | Sorting gives the same list for any reordering of its input. |
| Recipe.CollectUrisMembers | src/main.rs:88-152 | A string is a SRC_URI entry if and only if it is the translation of some package that is neither the root nor a path package. |
| Recipe.CollectUrisCount | src/main.rs:88-152 | There is one entry per contributing package, counting repeats. No deduplication takes place. |
| Recipe.CollectExtrasOfGit | src/main.rs:125-145 | The extra lines are the three lines of each non-root git package, in resolver order: three times as many lines as git dependencies. |
| Recipe.CollectAppend | src/main.rs:88-152 | Folding the translator over two package lists one after the other gives the concatenation of the two results. |
| Recipe.CollectUrisPermutation | src/main.rs:88-152 | Reordering the packages only reorders the SRC_URI entries: the multiset of entries is the same. |
| Recipe.RecipeOrderIndependent | src/main.rs:88-155 | The sorted SRC_URI list and the joined SRC_URI block are identical for any reordering of the resolved packages. |
| Recipe.SingleRegistryDependency | src/main.rs:92-99 | For a root package plus one registry dependency, the only SRC_URI entry is the dependency's `crate://` line, and there are no extra lines. |
| Recipe.RecipeFor | src/main.rs:155-223 | The written SRC_URI entries are a sorted permutation of the translated entries, joined with nothing between them. The recipe file is named `<name>_<version>.bb`. |
| Recipe.Assemble | src/main.rs:86-223 | The single pass that collects entries and extra lines, followed by the sort and the field values, produces exactly `RecipeFor`. |
| Recipe.Summary | src/main.rs:161-164 | SUMMARY is the description when the manifest has one, else the package name. |
| Recipe.Homepage | src/main.rs:167-173 | HOMEPAGE is the homepage, else the repository, else empty. |
| Recipe.LicenseSource | src/main.rs:176-182 | The license text is the license, else the license-file path, else `unknown`. The same choice is made at lines 188-194. |
| License.ResolveLicenseFile | src/main.rs:29-50 | The file is the token when that exists. It is `LICENSE-<token>` exactly when the token does not exist and that name does. Otherwise it is the token unchecked. The digest is the file's checksum when the file exists and can be read, else `generateme`. |
| License.LicenseFileParts | src/main.rs:29-50 | For a token and digests free of `;`, the line written for the token, split at `;`, reads back as `file://` + the chosen file and `md5=` + its digest or `generateme` + the continuation. |
| License.EntryLineParts | src/main.rs:37-49 | An entry line without its line end, split at `;`, reads back as the file URL and the digest parameter. |
| License.LicenseExprTokens | src/main.rs:176-185 | The LICENSE value, split back at the bar character, has one piece per `/`-token: one more than the `/`s in the license text. Each piece trims to the trimmed token. |
| License.LicenseExprOfTokens | src/main.rs:183-185 | For a license text built from `/`-free tokens, LICENSE is the trimmed tokens, in order, joined by a bar with a space on each side. |
| License.LicenseEntriesOfTokens | src/main.rs:195-197 | Such a text gives one license-file entry per token, resolved from the token untrimmed. |
| License.LicenseEntries | src/main.rs:188-197 | There is one entry per `/`-separated piece of the license text, in order, resolved from the piece as written. |
| License.LicFilesField | src/main.rs:188-197 | When neither the license text nor any digest spans a line, the trimmed LIC_FILES_CHKSUM value is the entry lines joined by newlines. Split at newlines, it reads back as exactly those entries, one per `/`-token. |
| License.LicFilesTrimmed | src/main.rs:221 | Trimming the joined entries removes exactly the final line end. |
| Strings.SplitCount | src/main.rs:183 | `split` yields one more piece than there are separators, empty pieces included. |
| Strings.JoinSplit | src/main.rs:183-185 | Joining the pieces of a split with the separator gives the original text back. |
| Strings.SplitJoin | src/main.rs:183-185 | Splitting a join of separator-free pieces gives the pieces back. |
| Strings.Trim | src/main.rs:184 | A trimmed string neither starts nor ends with a White_Space character. |
| Strings.TrimPadded | src/main.rs:184 | Whitespace added on either side does not change the trim, so trimming is idempotent on padded tokens. |

## Left out

- Locating the manifest, loading the root package and resolving dependencies (src/main.rs:76-84): Cargo's resolver is outside the model. The resolved packages are an input sequence.
- The command-line entry point and options (src/main.rs:52-75), opening and writing the recipe file, and its error messages (src/main.rs:202-229). These are I/O.
- `file_md5` (src/main.rs:21-26). Reading a file and computing MD5 are abstracted into `License.Disk.checksums`. A name that exists but is missing from that map is a file whose read fails.
- The template text `bitbake.template` and the generator version `CARGO_PKG_VERSION`. The template is not part of this model. `RecipeFields` holds the values substituted into it, except the generator version.
- Versions are kept as the text Cargo prints for them, because the model only concatenates them.
- A git source with no reference and a git URL with no `:`. The program panics on both (`unwrap`). The reference is a field of `Git`, and `Translatable` makes the `:` a precondition.
- SourceUri.Translate: names the line builder used for each kind of source rather than spelling out the text. `RegistryUriParts`, `GitUriOfParts` and the `…LineParts` lemmas read those lines back. The line for any other source is its URL followed by the continuation, stated in the contract itself.
- Recipe.RecipeFor: does not restate SUMMARY, HOMEPAGE and the license fields. `Summary`, `Homepage`, `LicenseSource` and the License lemmas state those.
- Deduplication. The code deduplicates neither the SRC_URI list nor the license fields; the model follows the code: `CollectUrisCount` counts repeated entries, and `LicenseEntries` keeps one entry per token even when tokens repeat.
- Order independence of the extra lines. The extra lines follow resolver order and are not sorted, so only the SRC_URI list is order-independent.
