/** The recipe's license fields: the OR-expression written to LICENSE and the
    checksummed file list written to LIC_FILES_CHKSUM, both read off the
    package's `/`-separated license text. */
module License {
  import opened Strings
  import SourceUri

  /** Written in place of a checksum that could not be computed. */
  const Placeholder: string := "generateme"

  /** What the program sees of the project root: the names that exist there, and
      the md5 digest of each file that can be read. A name missing from
      `checksums` is one whose digest cannot be computed. */
  datatype Disk = Disk(present: set<string>, checksums: map<string, string>)

  /** One LIC_FILES_CHKSUM entry: the file referred to and its digest or the placeholder. */
  datatype LicenseFileEntry = LicenseFileEntry(file: string, md5: string)

  /** The second file name tried for a license token. */
  function SpecialName(token: string): string
  {
    "LICENSE-" + token
  }

  /** The digest of `file`, or the placeholder when it cannot be read. */
  function DigestOr(disk: Disk, file: string): string
  {
    if file in disk.checksums then disk.checksums[file] else Placeholder
  }

  /** The file chosen for one license token: the token itself if such a file
      exists, else `LICENSE-<token>` if that exists, else the token unchecked. */
  function ResolveLicenseFile(token: string, disk: Disk): (e: LicenseFileEntry)
    ensures e.file == token || e.file == SpecialName(token)
    ensures token in disk.present ==> e.file == token
    ensures e.file == SpecialName(token) <==> token !in disk.present && SpecialName(token) in disk.present
    ensures e.md5 == if e.file in disk.present && e.file in disk.checksums
                     then disk.checksums[e.file] else Placeholder
  {
    if token in disk.present then LicenseFileEntry(token, DigestOr(disk, token))
    else if SpecialName(token) in disk.present then
      LicenseFileEntry(SpecialName(token), DigestOr(disk, SpecialName(token)))
    else LicenseFileEntry(token, Placeholder)
  }

  /** An entry as one line of the recipe, without its final newline. */
  function EntryLine(e: LicenseFileEntry): string
  {
    "file://" + e.file + ";md5=" + e.md5 + " \\"
  }

  /** `license_file`: the entry for one token, ending in a line continuation. */
  function LicenseFile(token: string, disk: Disk): (r: string)
    ensures r == EntryLine(ResolveLicenseFile(token, disk)) + "\n"
  {
    var e := ResolveLicenseFile(token, disk);
    "file://" + e.file + ";md5=" + e.md5 + SourceUri.Continuation
  }

  /** An entry line, split at its semicolons, reads back as the file URL and the
      digest parameter. */
  lemma EntryLineParts(e: LicenseFileEntry)
    requires ';' !in e.file && ';' !in e.md5
    ensures Split(EntryLine(e), ';') == ["file://" + e.file, "md5=" + e.md5 + " \\"]
  {
    EntryParts(e.file, e.md5, " \\");
  }

  /** The line `license_file` writes for a token reads back as the chosen file and
      its digest or the placeholder, followed by the continuation. */
  lemma LicenseFileParts(token: string, disk: Disk)
    requires ';' !in token
    requires forall f :: f in disk.checksums ==> ';' !in disk.checksums[f]
    ensures var e := ResolveLicenseFile(token, disk);
            Split(LicenseFile(token, disk), ';') == ["file://" + e.file, "md5=" + e.md5 + SourceUri.Continuation]
  {
    var e := ResolveLicenseFile(token, disk);
    EntryPlain(token, disk);
    EntryParts(e.file, e.md5, SourceUri.Continuation);
  }

  /** Neither the chosen file nor the digest holds a `;` when the token and the
      digests do not. */
  lemma EntryPlain(token: string, disk: Disk)
    requires ';' !in token
    requires forall f :: f in disk.checksums ==> ';' !in disk.checksums[f]
    ensures ';' !in ResolveLicenseFile(token, disk).file
    ensures ';' !in ResolveLicenseFile(token, disk).md5
  {
    var prefix, placeholder := "LICENSE-", Placeholder;
    assert forall k :: 0 <= k < |prefix| ==> prefix[k] != ';';
    assert forall k :: 0 <= k < |placeholder| ==> placeholder[k] != ';';
    assert ';' !in SpecialName(token);
  }

  lemma EntryParts(file: string, md5: string, cont: string)
    requires ';' !in file && ';' !in md5 && ';' !in cont
    ensures Split("file://" + file + ";md5=" + md5 + cont, ';') == ["file://" + file, "md5=" + md5 + cont]
  {
    var scheme, key := "file://", "md5=";
    assert forall k :: 0 <= k < |scheme| ==> scheme[k] != ';';
    assert forall k :: 0 <= k < |key| ==> key[k] != ';';
    var head, tail := scheme + file, key + md5 + cont;
    assert "file://" + file + ";md5=" + md5 + cont == head + [';'] + tail;
    SplitAfterPrefix(head, ';', tail);
    SplitNoSeparator(tail, ';');
  }

  function TrimAll(xs: seq<string>): (r: seq<string>)
    ensures |r| == |xs|
    ensures forall i :: 0 <= i < |xs| ==> r[i] == Trim(xs[i])
  {
    seq(|xs|, i requires 0 <= i < |xs| => Trim(xs[i]))
  }

  /** The LICENSE field: the `/`-separated tokens, trimmed, joined by ` | `. */
  function LicenseExpr(src: string): string
  {
    Join(TrimAll(Split(src, '/')), " | ")
  }

  /** One entry per `/`-separated token, untrimmed. */
  function LicenseEntries(src: string, disk: Disk): (r: seq<LicenseFileEntry>)
    ensures |r| == |Split(src, '/')|
    ensures forall i :: 0 <= i < |r| ==> r[i] == ResolveLicenseFile(Split(src, '/')[i], disk)
  {
    var tokens := Split(src, '/');
    seq(|tokens|, i requires 0 <= i < |tokens| => ResolveLicenseFile(tokens[i], disk))
  }

  /** The LIC_FILES_CHKSUM field before it is trimmed: the entries one after another. */
  function LicFiles(src: string, disk: Disk): string
  {
    var tokens := Split(src, '/');
    Join(seq(|tokens|, i requires 0 <= i < |tokens| => LicenseFile(tokens[i], disk)), "")
  }

  /** The LICENSE field of a license text built from `/`-free tokens: the tokens,
      each trimmed, in their order, separated by ` | `. */
  lemma LicenseExprOfTokens(tokens: seq<string>)
    requires |tokens| >= 1
    requires forall i :: 0 <= i < |tokens| ==> '/' !in tokens[i]
    ensures LicenseExpr(Join(tokens, "/")) == Join(TrimAll(tokens), " | ")
  {
    SplitJoin(tokens, '/');
  }

  /** The license files of such a text: one entry per token, each resolved from the
      token as written, untrimmed. */
  lemma LicenseEntriesOfTokens(tokens: seq<string>, disk: Disk)
    requires |tokens| >= 1
    requires forall i :: 0 <= i < |tokens| ==> '/' !in tokens[i]
    ensures var entries := LicenseEntries(Join(tokens, "/"), disk);
            && |entries| == |tokens|
            && forall i :: 0 <= i < |tokens| ==> entries[i] == ResolveLicenseFile(tokens[i], disk)
  {
    SplitJoin(tokens, '/');
  }

  /** The entries as recipe lines, without line ends. */
  function EntryLines(entries: seq<LicenseFileEntry>): (r: seq<string>)
    ensures |r| == |entries|
    ensures forall i :: 0 <= i < |r| ==> r[i] == EntryLine(entries[i])
  {
    seq(|entries|, i requires 0 <= i < |entries| => EntryLine(entries[i]))
  }

  /** The digests the program can compute are hexadecimal text, so none spans a line. */
  predicate SingleLineDigests(disk: Disk)
  {
    forall f :: f in disk.checksums ==> '\n' !in disk.checksums[f]
  }

  /** The LIC_FILES_CHKSUM field as written: trimmed, it is one line per `/`-separated
      token in the order of the tokens, the last without its line end; it reads back,
      split at newlines, as exactly those entries. */
  lemma LicFilesField(src: string, disk: Disk)
    requires '\n' !in src && SingleLineDigests(disk)
    ensures var lines := EntryLines(LicenseEntries(src, disk));
            && |lines| == multiset(src)['/'] + 1
            && Trim(LicFiles(src, disk)) == Join(lines, "\n")
            && Split(Trim(LicFiles(src, disk)), '\n') == lines
  {
    var lines := EntryLines(LicenseEntries(src, disk));
    var body := Join(lines, "\n");
    SplitCount(src, '/');
    LicFilesTrimmed(src, disk);
    LinesSingle(src, disk);
    SplitJoin(lines, '\n');
  }

  /** Trimming the field removes exactly the final line end. */
  lemma LicFilesTrimmed(src: string, disk: Disk)
    ensures Trim(LicFiles(src, disk)) == Join(EntryLines(LicenseEntries(src, disk)), "\n")
  {
    var lines := EntryLines(LicenseEntries(src, disk));
    var body := Join(lines, "\n");
    assert TrimmedBy(body, WhitespaceChars) by {
      JoinEnds(lines, "\n");
      BodyTrimmed(lines[0], lines[|lines| - 1], body);
    }
    LicFilesTerminated(src, disk);
    TrimLineEnd(body);
  }

  /** A line end after text with nothing to trim is all that trimming removes. */
  lemma TrimLineEnd(body: string)
    requires TrimmedBy(body, WhitespaceChars)
    ensures Trim(body + "\n") == body
  {
    TrimUnique("", body, "\n", WhitespaceChars);
    assert body + "\n" == "" + body + "\n";
  }

  /** Each `license_file` result is its entry line plus a line end. */
  lemma LicFilesTerminated(src: string, disk: Disk)
    ensures LicFiles(src, disk) == Join(EntryLines(LicenseEntries(src, disk)), "\n") + "\n"
  {
    var tokens := Split(src, '/');
    var files := seq(|tokens|, i requires 0 <= i < |tokens| => LicenseFile(tokens[i], disk));
    assert LicFiles(src, disk) == Join(files, "");
    JoinTerminated(files, EntryLines(LicenseEntries(src, disk)), '\n');
  }

  lemma LinesSingle(src: string, disk: Disk)
    requires '\n' !in src && SingleLineDigests(disk)
    ensures var lines := EntryLines(LicenseEntries(src, disk));
            forall i :: 0 <= i < |lines| ==> '\n' !in lines[i]
  {
    var tokens := Split(src, '/');
    var lines := EntryLines(LicenseEntries(src, disk));
    forall i | 0 <= i < |lines|
      ensures '\n' !in lines[i]
    {
      SplitPieceWithout(src, '/', '\n', i);
      EntryLineSingle(tokens[i], disk);
    }
  }

  /** The entry line for a token that spans no line spans none itself. */
  lemma EntryLineSingle(token: string, disk: Disk)
    requires '\n' !in token && SingleLineDigests(disk)
    ensures '\n' !in EntryLine(ResolveLicenseFile(token, disk))
  {
    var e := ResolveLicenseFile(token, disk);
    var scheme, md5, tail, special := "file://", ";md5=", " \\", "LICENSE-";
    assert forall k :: 0 <= k < |scheme| ==> scheme[k] != '\n';
    assert forall k :: 0 <= k < |md5| ==> md5[k] != '\n';
    assert forall k :: 0 <= k < |tail| ==> tail[k] != '\n';
    assert forall k :: 0 <= k < |special| ==> special[k] != '\n';
    assert forall k :: 0 <= k < |Placeholder| ==> Placeholder[k] != '\n';
    assert EntryLine(e) == scheme + e.file + md5 + e.md5 + tail;
  }

  /** Entry lines start with `f` and end with a backslash, so a block of them has
      nothing to trim. */
  lemma BodyTrimmed(first: string, last: string, body: string)
    requires |first| > 0 && first[0] == 'f' && |last| > 0 && last[|last| - 1] == '\\'
    requires |body| >= |first| && body[..|first|] == first
    requires |body| >= |last| && body[|body| - |last|..] == last
    ensures TrimmedBy(body, WhitespaceChars)
  {
    assert body[0] == first[0];
    assert body[|body| - 1] == last[|last| - 1];
  }

  /** Reading the LICENSE field back: split at `|` and trimmed, it gives exactly
      the trimmed license tokens, one more than the `/`s in the license text. */
  lemma LicenseExprTokens(src: string)
    requires '|' !in src
    ensures |Split(LicenseExpr(src), '|')| == multiset(src)['/'] + 1
    ensures var parts, tokens := Split(LicenseExpr(src), '|'), Split(src, '/');
            && |parts| == |tokens|
            && forall i :: 0 <= i < |parts| ==> Trim(parts[i]) == Trim(tokens[i])
  {
    var tokens := Split(src, '/');
    var xs := TrimAll(tokens);
    SplitCount(src, '/');
    forall i | 0 <= i < |xs|
      ensures '|' !in xs[i] && Trim(xs[i]) == Trim(tokens[i])
    {
      SplitPieceWithout(src, '/', '|', i);
      TrimSubset(tokens[i], '|');
      TrimIdempotent(tokens[i]);
    }
    OrJoinParts(xs);
  }

  /** Splitting a ` | `-join at `|` gives the pieces back up to the spaces around them. */
  lemma {:induction false} OrJoinParts(xs: seq<string>)
    requires |xs| >= 1
    requires forall i :: 0 <= i < |xs| ==> '|' !in xs[i]
    ensures var parts := Split(Join(xs, " | "), '|');
            && |parts| == |xs|
            && forall i :: 0 <= i < |xs| ==> Trim(parts[i]) == Trim(xs[i])
  {
    if |xs| == 1 {
      SplitNoSeparator(xs[0], '|');
    } else {
      var j := Join(xs[1..], " | ");
      var ps := Split(j, '|');
      OrJoinParts(xs[1..]);
      assert Join(xs, " | ") == xs[0] + " | " + j;
      var parts := Split(Join(xs, " | "), '|');
      OrSplitShape(xs[0], j);
      PadTrim(xs[0], ps[0]);
      forall i | 0 <= i < |xs|
        ensures Trim(parts[i]) == Trim(xs[i])
      {
        if i == 0 {
          assert parts[0] == xs[0] + " ";
        } else if i == 1 {
          assert parts[1] == " " + ps[0];
          assert Trim(ps[0]) == Trim(xs[1..][0]);
        } else {
          assert parts[i] == ps[i - 1];
          assert Trim(ps[i - 1]) == Trim(xs[1..][i - 1]);
        }
      }
    }
  }

  /** Where the first ` | ` cuts a join: the head plus its space, then the rest's
      first piece behind a space, then the rest's other pieces unchanged. */
  lemma OrSplitShape(x: string, j: string)
    requires '|' !in x
    ensures var parts, ps := Split(x + " | " + j, '|'), Split(j, '|');
            && |parts| == |ps| + 1
            && parts[0] == x + " " && parts[1] == " " + ps[0]
            && forall i :: 2 <= i < |parts| ==> parts[i] == ps[i - 1]
  {
    OrSeparatorParts(x, j);
    SplitAfterPrefix(x + " ", '|', [' '] + j);
    SplitCons(' ', j, '|');
  }

  lemma OrSeparatorParts(x: string, j: string)
    ensures x + " | " + j == (x + " ") + ['|'] + ([' '] + j)
  {
  }

  lemma PadTrim(x: string, y: string)
    ensures Trim(x + " ") == Trim(x)
    ensures Trim(" " + y) == Trim(y)
  {
    assert x + " " == "" + x + " ";
    TrimPadded("", x, " ");
    assert " " + y == " " + y + "";
    TrimPadded(" ", y, "");
  }
}
