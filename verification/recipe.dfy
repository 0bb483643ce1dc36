/** The recipe assembler: folds the translator over the resolved packages, sorts
    the fetch lines, and computes the metadata fields substituted into the recipe. */
module Recipe {
  import opened Wrappers
  import opened Strings
  import opened Ordering
  import opened SourceUri
  import License

  /** The root package's manifest metadata, each field optional as in Cargo.toml. */
  datatype Metadata = Metadata(
    description: Option<string>,
    homepage: Option<string>,
    repository: Option<string>,
    license: Option<string>,
    licenseFile: Option<string>)

  /** The package the recipe is written for. */
  datatype RootPackage = RootPackage(name: string, version: string, metadata: Metadata)

  /** The values substituted into the recipe template, and the name of the file written. */
  datatype RecipeFields = RecipeFields(
    path: string,
    name: string,
    version: string,
    summary: string,
    homepage: string,
    license: string,
    licFiles: string,
    srcUris: seq<string>,
    srcUri: string,
    srcUriExtras: string)

  /** SUMMARY: the description, else the package name. */
  function Summary(root: RootPackage): (r: string)
    ensures root.metadata.description.Some? ==> r == root.metadata.description.value
    ensures root.metadata.description.None? ==> r == root.name
  {
    root.metadata.description.GetOr(root.name)
  }

  /** HOMEPAGE: the homepage, else the repository, else empty. */
  function Homepage(m: Metadata): (r: string)
    ensures m.homepage.Some? ==> r == m.homepage.value
    ensures m.homepage.None? && m.repository.Some? ==> r == m.repository.value
    ensures m.homepage.None? && m.repository.None? ==> r == ""
  {
    m.homepage.GetOr(m.repository.GetOr(""))
  }

  /** The text both license fields are read from: the license, else the license
      file's path, else `unknown`. */
  function LicenseSource(m: Metadata): (r: string)
    ensures m.license.Some? ==> r == m.license.value
    ensures m.license.None? && m.licenseFile.Some? ==> r == m.licenseFile.value
    ensures m.license.None? && m.licenseFile.None? ==> r == "unknown"
  {
    m.license.GetOr(m.licenseFile.GetOr("unknown"))
  }

  predicate AllTranslatable(root: string, pkgs: seq<Package>)
  {
    forall i :: 0 <= i < |pkgs| ==> Translatable(root, pkgs[i])
  }

  /** A package with a SRC_URI entry: any but the root and path packages. */
  predicate Contributes(root: string, p: Package)
  {
    p.name != root && !p.source.Path?
  }

  /** The SRC_URI entries in the order the resolver yields the packages. */
  function CollectUris(root: string, pkgs: seq<Package>): seq<string>
    requires AllTranslatable(root, pkgs)
  {
    if |pkgs| == 0 then [] else EntryOf(root, pkgs[0]) + CollectUris(root, pkgs[1..])
  }

  /** The package's SRC_URI entry, if it has one, as a list of zero or one. */
  function EntryOf(root: string, p: Package): seq<string>
    requires Translatable(root, p)
  {
    var t := Translate(root, p);
    if t.uri.Some? then [t.uri.value] else []
  }

  /** The extra lines, pushed package by package as the translator meets them. */
  function CollectExtras(root: string, pkgs: seq<Package>): seq<string>
    requires AllTranslatable(root, pkgs)
  {
    if |pkgs| == 0 then []
    else Translate(root, pkgs[0]).extras + CollectExtras(root, pkgs[1..])
  }

  /** The packages that get a SRC_URI entry, in order. */
  function Contributors(root: string, pkgs: seq<Package>): (r: seq<Package>)
    ensures forall p :: p in r <==> p in pkgs && Contributes(root, p)
  {
    if |pkgs| == 0 then []
    else
      var rest := Contributors(root, pkgs[1..]);
      assert pkgs == [pkgs[0]] + pkgs[1..];
      if Contributes(root, pkgs[0]) then [pkgs[0]] + rest else rest
  }

  /** The git packages other than the root, in order. */
  function GitDependencies(root: string, pkgs: seq<Package>): (r: seq<Package>)
    ensures forall p :: p in r <==> p in pkgs && p.name != root && p.source.Git?
  {
    if |pkgs| == 0 then []
    else
      var rest := GitDependencies(root, pkgs[1..]);
      assert pkgs == [pkgs[0]] + pkgs[1..];
      if pkgs[0].name != root && pkgs[0].source.Git? then [pkgs[0]] + rest else rest
  }

  /** The three extra lines of each git dependency, one dependency after another. */
  function GitBlock(deps: seq<Package>): seq<string>
    requires forall i :: 0 <= i < |deps| ==> deps[i].source.Git?
  {
    if |deps| == 0 then []
    else GitExtras(deps[0].name, deps[0].source.reference) + GitBlock(deps[1..])
  }

  /** What is written for the root package given its resolved dependencies. */
  function RecipeFor(root: RootPackage, pkgs: seq<Package>, disk: License.Disk): (r: RecipeFields)
    requires AllTranslatable(root.name, pkgs)
    ensures Sorted(r.srcUris)
    ensures multiset(r.srcUris) == multiset(CollectUris(root.name, pkgs))
    ensures r.srcUri == Join(r.srcUris, "")
    ensures r.path == root.name + "_" + root.version + ".bb"
  {
    var uris := Sort(CollectUris(root.name, pkgs));
    var source := LicenseSource(root.metadata);
    RecipeFields(
      path := root.name + "_" + root.version + ".bb",
      name := root.name,
      version := root.version,
      summary := Trim(Summary(root)),
      homepage := Trim(Homepage(root.metadata)),
      license := Trim(License.LicenseExpr(source)),
      licFiles := Trim(License.LicFiles(source, disk)),
      srcUris := uris,
      srcUri := Join(uris, ""),
      srcUriExtras := Join(CollectExtras(root.name, pkgs), "\n"))
  }

  /** The fold over a concatenation is the concatenation of the folds. */
  lemma CollectAppend(root: string, a: seq<Package>, b: seq<Package>)
    requires AllTranslatable(root, a) && AllTranslatable(root, b)
    ensures AllTranslatable(root, a + b)
    ensures CollectUris(root, a + b) == CollectUris(root, a) + CollectUris(root, b)
    ensures CollectExtras(root, a + b) == CollectExtras(root, a) + CollectExtras(root, b)
  {
    CollectUrisAppend(root, a, b);
    CollectExtrasAppend(root, a, b);
  }

  lemma TranslatableAppend(root: string, a: seq<Package>, b: seq<Package>)
    requires AllTranslatable(root, a) && AllTranslatable(root, b)
    ensures AllTranslatable(root, a + b)
  {
    forall i | 0 <= i < |a + b|
      ensures Translatable(root, (a + b)[i])
    {
      if i < |a| {
        assert (a + b)[i] == a[i];
      } else {
        assert (a + b)[i] == b[i - |a|];
      }
    }
  }

  lemma {:induction false} CollectUrisAppend(root: string, a: seq<Package>, b: seq<Package>)
    requires AllTranslatable(root, a) && AllTranslatable(root, b)
    ensures AllTranslatable(root, a + b)
    ensures CollectUris(root, a + b) == CollectUris(root, a) + CollectUris(root, b)
  {
    TranslatableAppend(root, a, b);
    if |a| == 0 {
      assert a + b == b;
    } else {
      var e := EntryOf(root, a[0]);
      assert (a + b)[0] == a[0];
      assert (a + b)[1..] == a[1..] + b;
      assert AllTranslatable(root, a[1..]);
      CollectUrisAppend(root, a[1..], b);
      calc {
        CollectUris(root, a + b);
        e + CollectUris(root, a[1..] + b);
        e + (CollectUris(root, a[1..]) + CollectUris(root, b));
        (e + CollectUris(root, a[1..])) + CollectUris(root, b);
        CollectUris(root, a) + CollectUris(root, b);
      }
    }
  }

  lemma {:induction false} CollectExtrasAppend(root: string, a: seq<Package>, b: seq<Package>)
    requires AllTranslatable(root, a) && AllTranslatable(root, b)
    ensures AllTranslatable(root, a + b)
    ensures CollectExtras(root, a + b) == CollectExtras(root, a) + CollectExtras(root, b)
  {
    TranslatableAppend(root, a, b);
    if |a| == 0 {
      assert a + b == b;
    } else {
      var e := Translate(root, a[0]).extras;
      assert (a + b)[0] == a[0];
      assert (a + b)[1..] == a[1..] + b;
      assert AllTranslatable(root, a[1..]);
      CollectExtrasAppend(root, a[1..], b);
      calc {
        CollectExtras(root, a + b);
        e + CollectExtras(root, a[1..] + b);
        e + (CollectExtras(root, a[1..]) + CollectExtras(root, b));
        (e + CollectExtras(root, a[1..])) + CollectExtras(root, b);
        CollectExtras(root, a) + CollectExtras(root, b);
      }
    }
  }

  /** Every SRC_URI entry is the translation of a package that is neither the root
      nor a path package, and every such package's translation is an entry. */
  lemma {:induction false} CollectUrisMembers(root: string, pkgs: seq<Package>, u: string)
    requires AllTranslatable(root, pkgs)
    ensures u in CollectUris(root, pkgs) <==>
            exists i :: 0 <= i < |pkgs| && Contributes(root, pkgs[i]) && Translate(root, pkgs[i]).uri == Some(u)
  {
    if |pkgs| > 0 {
      CollectUrisMembers(root, pkgs[1..], u);
      if exists i :: 0 <= i < |pkgs| && Contributes(root, pkgs[i]) && Translate(root, pkgs[i]).uri == Some(u) {
        var i :| 0 <= i < |pkgs| && Contributes(root, pkgs[i]) && Translate(root, pkgs[i]).uri == Some(u);
        if i > 0 {
          assert pkgs[1..][i - 1] == pkgs[i];
        }
      }
      if exists i :: 0 <= i < |pkgs[1..]| && Contributes(root, pkgs[1..][i]) && Translate(root, pkgs[1..][i]).uri == Some(u) {
        var i :| 0 <= i < |pkgs[1..]| && Contributes(root, pkgs[1..][i]) && Translate(root, pkgs[1..][i]).uri == Some(u);
        assert pkgs[i + 1] == pkgs[1..][i];
      }
    }
  }

  /** Exactly one SRC_URI entry per package that is neither the root nor a path package. */
  lemma {:induction false} CollectUrisCount(root: string, pkgs: seq<Package>)
    requires AllTranslatable(root, pkgs)
    ensures |CollectUris(root, pkgs)| == |Contributors(root, pkgs)|
  {
    if |pkgs| > 0 {
      CollectUrisCount(root, pkgs[1..]);
    }
  }

  /** The extra lines are the three lines of each non-root git package, in resolver order. */
  lemma {:induction false} CollectExtrasOfGit(root: string, pkgs: seq<Package>)
    requires AllTranslatable(root, pkgs)
    ensures |CollectExtras(root, pkgs)| == 3 * |GitDependencies(root, pkgs)|
    ensures CollectExtras(root, pkgs) == GitBlock(GitDependencies(root, pkgs))
  {
    if |pkgs| > 0 {
      CollectExtrasOfGit(root, pkgs[1..]);
      var deps := GitDependencies(root, pkgs);
      if pkgs[0].name != root && pkgs[0].source.Git? {
        assert deps[1..] == GitDependencies(root, pkgs[1..]);
      }
    }
  }

  lemma TranslatablePermutation(root: string, a: seq<Package>, b: seq<Package>)
    requires AllTranslatable(root, a)
    requires multiset(a) == multiset(b)
    ensures AllTranslatable(root, b)
  {
    forall i | 0 <= i < |b|
      ensures Translatable(root, b[i])
    {
      assert b[i] in multiset(a);
    }
  }

  lemma AllTranslatableParts(root: string, a: seq<Package>, b: seq<Package>)
    requires AllTranslatable(root, a + b)
    ensures AllTranslatable(root, a) && AllTranslatable(root, b)
  {
    assert forall i :: 0 <= i < |a| ==> a[i] == (a + b)[i];
    assert forall i :: 0 <= i < |b| ==> b[i] == (a + b)[|a| + i];
  }

  /** Where the first element of `a` sits in a rearrangement `b` of it, and what surrounds it. */
  lemma PermutationSplit(a: seq<Package>, b: seq<Package>) returns (front: seq<Package>, back: seq<Package>)
    requires |a| > 0 && multiset(a) == multiset(b)
    ensures b == front + [a[0]] + back
    ensures multiset(a[1..]) == multiset(front + back)
  {
    var x := a[0];
    assert x in multiset(b);
    var j :| 0 <= j < |b| && b[j] == x;
    front, back := b[..j], b[j + 1..];
    assert b == front + [x] + back;
    assert a == [x] + a[1..];
    assert multiset(a) == multiset{x} + multiset(a[1..]);
    assert multiset(b) == multiset{x} + multiset(front + back);
    assert multiset(a[1..]) == multiset(a) - multiset{x};
    assert multiset(front + back) == multiset(b) - multiset{x};
  }

  /** Reordering the packages reorders the SRC_URI entries and nothing more. */
  lemma {:induction false} CollectUrisPermutation(root: string, a: seq<Package>, b: seq<Package>)
    requires AllTranslatable(root, a)
    requires multiset(a) == multiset(b)
    ensures AllTranslatable(root, b)
    ensures multiset(CollectUris(root, a)) == multiset(CollectUris(root, b))
    decreases |a|
  {
    TranslatablePermutation(root, a, b);
    if |a| == 0 {
      assert |b| == |multiset(b)| == 0;
    } else {
      var x := a[0];
      var front, back := PermutationSplit(a, b);
      assert a == [x] + a[1..];
      AllTranslatableParts(root, [x], a[1..]);
      TranslatablePermutation(root, a[1..], front + back);
      AllTranslatableParts(root, front, back);
      CollectUrisPermutation(root, a[1..], front + back);
      CollectUrisAppend(root, front, back);
      CollectUrisAppend(root, front, [x]);
      CollectUrisAppend(root, front + [x], back);
      CollectUrisAppend(root, [x], a[1..]);
      var cx := CollectUris(root, [x]);
      assert CollectUris(root, a) == cx + CollectUris(root, a[1..]);
      assert CollectUris(root, b) == CollectUris(root, front) + cx + CollectUris(root, back);
    }
  }

  /** The SRC_URI block depends only on which packages were resolved, not on the
      order the resolver listed them in. */
  lemma RecipeOrderIndependent(root: RootPackage, a: seq<Package>, b: seq<Package>, disk: License.Disk)
    requires AllTranslatable(root.name, a)
    requires multiset(a) == multiset(b)
    ensures AllTranslatable(root.name, b)
    ensures RecipeFor(root, a, disk).srcUris == RecipeFor(root, b, disk).srcUris
    ensures RecipeFor(root, a, disk).srcUri == RecipeFor(root, b, disk).srcUri
  {
    CollectUrisPermutation(root.name, a, b);
    SortPermutationInvariant(CollectUris(root.name, a), CollectUris(root.name, b));
  }

  /** A crate whose only dependency comes from the registry: the root's own entry is
      dropped and the recipe fetches just that dependency. */
  lemma SingleRegistryDependency(root: RootPackage, self: Package, dep: Package, disk: License.Disk)
    requires self.name == root.name
    requires dep.name != root.name && dep.source.Registry?
    ensures AllTranslatable(root.name, [self, dep])
    ensures RecipeFor(root, [self, dep], disk).srcUris == [RegistryUri(dep.name, dep.version)]
    ensures RecipeFor(root, [self, dep], disk).srcUriExtras == ""
  {
    var u := RegistryUri(dep.name, dep.version);
    var pkgs := [self, dep];
    assert CollectUris(root.name, pkgs) == [u] && CollectExtras(root.name, pkgs) == [] by {
      CollectSingle(root.name, self);
      CollectSingle(root.name, dep);
      CollectAppend(root.name, [self], [dep]);
      assert [self] + [dep] == pkgs;
    }
    assert Sort([u]) == [u] by {
      assert [u][1..] == [];
    }
    RecipeBlocks(root, pkgs, disk);
  }

  /** The two SRC_URI-related fields of the recipe. */
  lemma RecipeBlocks(root: RootPackage, pkgs: seq<Package>, disk: License.Disk)
    requires AllTranslatable(root.name, pkgs)
    ensures RecipeFor(root, pkgs, disk).srcUris == Sort(CollectUris(root.name, pkgs))
    ensures RecipeFor(root, pkgs, disk).srcUriExtras == Join(CollectExtras(root.name, pkgs), "\n")
  {
  }

  /** The fold over one package is that package's translation. */
  lemma CollectSingle(root: string, p: Package)
    requires Translatable(root, p)
    ensures AllTranslatable(root, [p])
    ensures var t := Translate(root, p);
            && CollectUris(root, [p]) == (if t.uri.Some? then [t.uri.value] else [])
            && CollectExtras(root, [p]) == t.extras
  {
    assert [p][1..] == [];
  }

  /** One more package extends the fold by that package's translation. */
  lemma CollectStep(root: string, pkgs: seq<Package>, i: nat)
    requires AllTranslatable(root, pkgs) && i < |pkgs|
    ensures AllTranslatable(root, pkgs[..i]) && AllTranslatable(root, pkgs[..i + 1])
    ensures CollectUris(root, pkgs[..i + 1]) == CollectUris(root, pkgs[..i]) + EntryOf(root, pkgs[i])
    ensures CollectExtras(root, pkgs[..i + 1]) ==
            CollectExtras(root, pkgs[..i]) + Translate(root, pkgs[i]).extras
  {
    assert pkgs[..i + 1] == pkgs[..i] + [pkgs[i]];
    AllTranslatableParts(root, pkgs[..i + 1], pkgs[i + 1..]) by {
      assert pkgs == pkgs[..i + 1] + pkgs[i + 1..];
    }
    AllTranslatableParts(root, pkgs[..i], [pkgs[i]]);
    CollectSingle(root, pkgs[i]);
    CollectAppend(root, pkgs[..i], [pkgs[i]]);
  }

  /** The assembler as the program runs it: one pass over the resolved packages
      collecting entries and extra lines, then the sort and the field values. */
  method Assemble(root: RootPackage, pkgs: seq<Package>, disk: License.Disk) returns (r: RecipeFields)
    requires AllTranslatable(root.name, pkgs)
    ensures r == RecipeFor(root, pkgs, disk)
    ensures Sorted(r.srcUris) && multiset(r.srcUris) == multiset(CollectUris(root.name, pkgs))
  {
    var uris: seq<string> := [];
    var extras: seq<string> := [];
    var i := 0;
    while i < |pkgs|
      invariant 0 <= i <= |pkgs|
      invariant AllTranslatable(root.name, pkgs[..i])
      invariant uris == CollectUris(root.name, pkgs[..i])
      invariant extras == CollectExtras(root.name, pkgs[..i])
    {
      var t := Translate(root.name, pkgs[i]);
      CollectStep(root.name, pkgs, i);
      if t.uri.Some? {
        uris := uris + [t.uri.value];
      }
      extras := extras + t.extras;
      i := i + 1;
    }
    assert pkgs[..i] == pkgs;
    var sorted := Sort(uris);
    var source := LicenseSource(root.metadata);
    r := RecipeFields(
      path := root.name + "_" + root.version + ".bb",
      name := root.name,
      version := root.version,
      summary := Trim(Summary(root)),
      homepage := Trim(Homepage(root.metadata)),
      license := Trim(License.LicenseExpr(source)),
      licFiles := Trim(License.LicFiles(source, disk)),
      srcUris := sorted,
      srcUri := Join(sorted, ""),
      srcUriExtras := Join(extras, "\n"));
  }
}
