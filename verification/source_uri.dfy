/** The per-package SRC_URI translator: how one resolved dependency becomes
    a BitBake fetch line plus, for git dependencies, the extra recipe lines
    that pin its revision and tell Cargo where the checkout lives. */
module SourceUri {
  import opened Wrappers
  import opened Strings

  /** Registry packages are always fetched from this host. */
  const CratesIoUrl: string := "crates.io"

  /** Space, backslash, newline: BitBake's line continuation inside SRC_URI. */
  const Continuation: string := " \\\n"

  /** The revision pinned for a git dependency that follows `master`. The
      doubled braces are emitted as they stand: the literal is not a format string. */
  const AutoRev: string := "${{AUTOREV}}"

  datatype GitReference = Tag(tag: string) | Rev(rev: string) | Branch(branch: string) {
    /** The tag, revision or branch name the reference carries. */
    function Text(): string
    {
      match this
      case Tag(s) => s
      case Rev(s) => s
      case Branch(s) => s
    }
  }

  /** Where the resolver found a package. `Other` is any further kind of source, known only by its URL. */
  datatype SourceKind =
    | Registry
    | Path
    | Git(url: string, reference: GitReference)
    | Other(url: string)

  /** A resolved package; its version is kept as the text Cargo prints for it. */
  datatype Package = Package(name: string, version: string, source: SourceKind)

  /** What one package contributes: maybe a SRC_URI entry, and the extra lines it appends. */
  datatype Translation = Translation(uri: Option<string>, extras: seq<string>)

  /** The program looks for a `:` in every git URL it translates and stops if there is none. */
  predicate Translatable(root: string, p: Package)
  {
    p.name != root && p.source.Git? ==> ':' in p.source.url
  }

  predicate EndsWith(s: string, suffix: string)
  {
    |suffix| <= |s| && s[|s| - |suffix|..] == suffix
  }

  function RegistryUri(name: string, version: string): string
  {
    "crate://" + CratesIoUrl + "/" + name + "/" + version + Continuation
  }

  /** The git URL in the form BitBake's git fetcher wants: the text up to the
      first `:` is the scheme; `ssh` and `https` become `git` plus a `protocol`
      parameter, any other URL is kept whole. */
  function GitUri(url: string, name: string): string
    requires ':' in url
  {
    var i := IndexOf(url, ':').value;
    var scheme, rest := url[..i], url[i..];
    (if scheme == "ssh" || scheme == "https" then "git" + rest + ";protocol=" + scheme else url)
    + GitParams(name)
  }

  /** The fetcher parameters every git entry ends with. */
  function GitParams(name: string): string
  {
    ";name=" + name + ";destsuffix=" + name
  }

  /** The revision written to `SRCREV_<name>`. */
  function PinnedRevision(reference: GitReference): string
  {
    match reference
    case Tag(s) => s
    case Rev(s) => s
    case Branch(s) => if s == "master" then AutoRev else s
  }

  function Quoted(s: string): string
  {
    "\"" + s + "\""
  }

  /** The three lines every git dependency appends, in the order the program pushes them.
      `${WORKDIR}` is BitBake's variable: the format string's doubled braces print single ones. */
  function GitExtras(name: string, reference: GitReference): seq<string>
  {
    [FormatLine(name), PinLine(name, PinnedRevision(reference)), PathLine(name)]
  }

  /** Adds the package to the revision format BitBake combines git revisions with. */
  function FormatLine(name: string): string
  {
    "SRCREV_FORMAT .= " + Quoted("_" + name)
  }

  /** Pins the revision BitBake fetches for the package. */
  function PinLine(name: string, rev: string): string
  {
    "SRCREV_" + name + " = " + Quoted(rev)
  }

  /** Tells the Cargo build where the package's checkout lives. */
  function PathLine(name: string): string
  {
    "EXTRA_OECARGO_PATHS += " + Quoted("${WORKDIR}/" + name)
  }

  /** One step of the filter_map over the resolved packages. */
  function Translate(root: string, p: Package): (t: Translation)
    requires Translatable(root, p)
    ensures t.uri.Some? <==> p.name != root && !p.source.Path?
    ensures t.extras != [] <==> p.name != root && p.source.Git?
    ensures t.extras != [] ==> |t.extras| == 3
    ensures t.uri.Some? && !p.source.Git? ==> EndsWith(t.uri.value, Continuation)
    ensures p.name != root && p.source.Registry? ==> t.uri == Some(RegistryUri(p.name, p.version))
    ensures p.name != root && p.source.Git? ==>
              t == Translation(Some(GitUri(p.source.url, p.name)), GitExtras(p.name, p.source.reference))
    ensures p.name != root && p.source.Other? ==> t.uri == Some(p.source.url + Continuation)
  {
    if p.name == root then Translation(None, [])
    else match p.source
      case Registry => Translation(Some(RegistryUri(p.name, p.version)), [])
      case Path => Translation(None, [])
      case Git(url, reference) => Translation(Some(GitUri(url, p.name)), GitExtras(p.name, reference))
      case Other(url) => Translation(Some(url + Continuation), [])
  }

  /** The git rewrite stated on the URL's two parts: the scheme before the first
      `:` and the rest, colon included. */
  lemma GitUriOfParts(scheme: string, rest: string, name: string)
    requires ':' !in scheme
    requires |rest| > 0 && rest[0] == ':'
    ensures GitUri(scheme + rest, name) ==
      if scheme == "ssh" || scheme == "https" then
        "git" + rest + ";protocol=" + scheme + ";name=" + name + ";destsuffix=" + name
      else
        scheme + rest + ";name=" + name + ";destsuffix=" + name
  {
    var url := scheme + rest;
    assert url == scheme + [':'] + rest[1..];
    IndexOfAfterPrefix(scheme, ':', rest[1..]);
    assert url[..|scheme|] == scheme;
    assert url[|scheme|..] == rest;
  }

  /** A git dependency's fetch line carries no continuation marker of its own: it
      ends with the package name as destination. */
  lemma GitUriEndsWithName(url: string, name: string)
    requires ':' in url
    ensures EndsWith(GitUri(url, name), ";destsuffix=" + name)
  {
    var i := IndexOf(url, ':').value;
    var scheme, rest := url[..i], url[i..];
    var base := if scheme == "ssh" || scheme == "https" then "git" + rest + ";protocol=" + scheme else url;
    var tail := ";destsuffix=" + name;
    assert GitUri(url, name) == base + GitParams(name);
    assert base + GitParams(name) == (base + ";name=" + name) + tail;
    EndsWithAppend(base + ";name=" + name, tail);
  }

  lemma EndsWithAppend(head: string, tail: string)
    ensures EndsWith(head + tail, tail)
  {
    assert (head + tail)[|head|..] == tail;
  }

  /** Nor does it carry a line end: in the joined SRC_URI block the entry after a
      git entry continues on the git entry's line. */
  lemma GitUriSingleLine(url: string, name: string)
    requires ':' in url && '\n' !in url && '\n' !in name
    ensures '\n' !in GitUri(url, name)
  {
    var i := IndexOf(url, ':').value;
    var git, protocol, nameKey, dest := "git", ";protocol=", ";name=", ";destsuffix=";
    assert forall k :: 0 <= k < |git| ==> git[k] != '\n';
    assert forall k :: 0 <= k < |protocol| ==> protocol[k] != '\n';
    assert forall k :: 0 <= k < |nameKey| ==> nameKey[k] != '\n';
    assert forall k :: 0 <= k < |dest| ==> dest[k] != '\n';
    assert '\n' !in url[i..] && '\n' !in url[..i];
  }

  /** A registry entry reads back, split at its slashes, as host, name and version. */
  lemma RegistryUriParts(name: string, version: string)
    requires '/' !in name && '/' !in version
    ensures Split(RegistryUri(name, version), '/') ==
            ["crate:", "", CratesIoUrl, name, version + Continuation]
  {
    var parts := ["crate:", "", CratesIoUrl, name, version + Continuation];
    RegistryUriJoin(name, version);
    RegistryPartsPlain(name, version);
    SplitJoin(parts, '/');
  }

  lemma RegistryUriJoin(name: string, version: string)
    ensures Join(["crate:", "", CratesIoUrl, name, version + Continuation], "/") == RegistryUri(name, version)
  {
    var tail := version + Continuation;
    var slash, scheme, empty := "/", "crate:", "";
    var j3 := Join([name, tail], slash);
    assert j3 == name + slash + tail by {
      JoinCons(name, [tail], slash);
    }
    var j2 := Join([CratesIoUrl, name, tail], slash);
    assert j2 == CratesIoUrl + slash + j3 by {
      JoinCons(CratesIoUrl, [name, tail], slash);
    }
    var j1 := Join([empty, CratesIoUrl, name, tail], slash);
    assert j1 == slash + j2 by {
      JoinCons(empty, [CratesIoUrl, name, tail], slash);
    }
    var j0 := Join([scheme, empty, CratesIoUrl, name, tail], slash);
    assert j0 == scheme + slash + j1 by {
      JoinCons(scheme, [empty, CratesIoUrl, name, tail], slash);
    }
    assert scheme + slash + slash == "crate://";
  }

  lemma RegistryPartsPlain(name: string, version: string)
    requires '/' !in name && '/' !in version
    ensures var parts := ["crate:", "", CratesIoUrl, name, version + Continuation];
            forall i :: 0 <= i < |parts| ==> '/' !in parts[i]
  {
    var scheme := "crate:";
    assert forall i :: 0 <= i < |scheme| ==> scheme[i] != '/';
    assert forall i :: 0 <= i < |CratesIoUrl| ==> CratesIoUrl[i] != '/';
    assert forall i :: 0 <= i < |Continuation| ==> Continuation[i] != '/';
  }

  /** The first extra line of a git dependency, split at its quotes, reads back
      as the package's part of SRCREV_FORMAT. */
  lemma FormatLineParts(name: string)
    requires '"' !in name
    ensures Split(FormatLine(name), '"') == ["SRCREV_FORMAT .= ", "_" + name, ""]
  {
    var format := "SRCREV_FORMAT .= ";
    assert forall i :: 0 <= i < |format| ==> format[i] != '"';
    QuotedParts(format, "_" + name);
  }

  /** The second extra line reads back as the pinned revision. */
  lemma PinLineParts(name: string, rev: string)
    requires '"' !in name && '"' !in rev
    ensures Split(PinLine(name, rev), '"') == ["SRCREV_" + name + " = ", rev, ""]
  {
    QuotedParts("SRCREV_" + name + " = ", rev);
  }

  /** The third extra line reads back as the package's checkout directory. */
  lemma PathLineParts(name: string)
    requires '"' !in name
    ensures Split(PathLine(name), '"') ==
            ["EXTRA_OECARGO_PATHS += ", "${WORKDIR}/" + name, ""]
  {
    var path, dir := "EXTRA_OECARGO_PATHS += ", "${WORKDIR}/";
    assert forall i :: 0 <= i < |path| ==> path[i] != '"';
    assert forall i :: 0 <= i < |dir| ==> dir[i] != '"';
    QuotedParts(path, dir + name);
  }

  lemma QuotedParts(before: string, inside: string)
    requires '"' !in before && '"' !in inside
    ensures Split(before + Quoted(inside), '"') == [before, inside, ""]
  {
    assert before + Quoted(inside) == before + ['"'] + inside + ['"'] + "";
    SplitThree(before, inside, "", '"');
  }

  /** The pinned revision is the reference's own text, except for the branch
      named exactly `master`, which floats with AUTOREV. */
  lemma PinnedRevisionKeepsText(reference: GitReference)
    ensures PinnedRevision(reference) == reference.Text() <==> reference != Branch("master")
    ensures reference == Branch("master") ==> PinnedRevision(reference) == AutoRev
  {
    assert |AutoRev| != |"master"|;
  }
}
