/** The page loop of `main` and the summary it writes
    (tools/compare_latest_pair.py, lines 67-116): every page folder is scanned
    for screenshots, its two latest captures are compared, and one row per
    compared page goes into the summary, flagged pages first. */
module Report {
  import opened Sorting
  import opened Basics
  import opened Timestamps
  import opened Images
  import opened Zones
  import opened Classify

  type Dim = x: nat | x > 0 witness 1

  /** A 2-D `uint8` array, the type of the normalised difference map. */
  type GrayMap = g: seq<seq<int>> | IsGray(g) witness []

  /** An entry of a page folder: its name, what `stat` reports as its
      modification time (absent when `stat` fails), and the height and width of
      the image `cv2.imread` decodes from it (absent when it cannot). */
  datatype FileEntry = FileEntry(name: string, mtime: Option<real>, decoded: Option<(Dim, Dim)>)

  /** What comparing the page's pair yields and the model takes as given: the
      SSIM score, the pHash distance and the normalised difference map. */
  datatype Measure = Measure(score: real, pdelta: int, norm: GrayMap)

  /** An entry of the screenshots root; only directories are pages. */
  datatype Folder = Folder(name: string, isDir: bool, files: seq<FileEntry>, measure: Measure)

  /** One summary row; `heatmap` is the heat map's path inside the run folder. */
  datatype Row = Row(
    page: string, prev: string, curr: string,
    score: real, pdelta: int, changed: bool, zone: string, heatmap: string)

  /** The two exceptions the model keeps, both uncaught in `main`: `TypeError`
      when a page's sort keys are of different kinds, `ValueError` when an image
      is smaller than SSIM's 7x7 window. */
  datatype Failure = MixedKeyKinds | SsimWindow

  datatype PageResult = TooFewImages | Unreadable | Compared(row: Row) | Failed(why: Failure)

  datatype RunOutcome = Summary(rows: seq<Row>) | NoComparablePages | Aborted(page: string, why: Failure)

  /** The loop over pages so far: the rows collected, or the page whose
      exception ended the run. */
  datatype Progress = Done(rows: seq<Row>) | Stopped(page: string, why: Failure)

  // ---------------------------------------------------------------- globbing

  const IMAGE_EXTS: seq<string> := ["png", "jpg", "jpeg", "webp"]

  /** `glob` with the pattern `*.ext` on a bare name: the name ends in `.ext`
      and is not hidden (a leading `*` does not match a leading dot). Matching
      is case-sensitive. */
  predicate MatchesExt(name: string, ext: string) {
    EndsWith(name, "." + ext) && !(|name| > 0 && name[0] == '.')
  }

  predicate IsImageName(name: string) {
    exists ext :: ext in IMAGE_EXTS && MatchesExt(name, ext)
  }

  /** The entries of one directory that `*.ext` matches, in listing order: what
      `glob.glob(folder / "*.ext")` returns when the folder's name holds no
      wildcard (`LiteralPageGlobsItself`). */
  function Glob(files: seq<FileEntry>, ext: string): seq<FileEntry> {
    if files == [] then []
    else (if MatchesExt(files[0].name, ext) then [files[0]] else []) + Glob(files[1..], ext)
  }

  /** `Glob` keeps each matching entry as often as it is listed, and no other. */
  lemma {:induction false} GlobCounts(files: seq<FileEntry>, ext: string)
    ensures forall e :: multiset(Glob(files, ext))[e] == if MatchesExt(e.name, ext) then multiset(files)[e] else 0
  {
    if files != [] {
      assert files == [files[0]] + files[1..];
      GlobCounts(files[1..], ext);
    }
  }

  /** `imgs` after the `+=` loop has run over the first `n` patterns. */
  function Collected(files: seq<FileEntry>, n: nat): seq<FileEntry>
    requires n <= |IMAGE_EXTS|
  {
    if n == 0 then [] else Collected(files, n - 1) + Glob(files, IMAGE_EXTS[n - 1])
  }

  /** Lines 72-74: the screenshots of a page, one pattern after another. */
  method CollectImages(files: seq<FileEntry>) returns (imgs: seq<FileEntry>)
    ensures imgs == Collected(files, |IMAGE_EXTS|)
  {
    imgs := [];
    for i := 0 to |IMAGE_EXTS|
      invariant imgs == Collected(files, i)
    {
      var found := Glob(files, IMAGE_EXTS[i]);
      imgs := imgs + found;
    }
  }

  /** The four extensions differ in their next-to-last letter. */
  lemma MatchesExtPenultimate(name: string, ext: string)
    requires MatchesExt(name, ext) && |ext| >= 2
    ensures name[|name| - 2] == ext[|ext| - 2]
  {
    assert name[|name| - |ext| - 1..][|ext| - 1] == name[|name| - 2];
  }

  lemma ExtsDisjoint(name: string, i: nat, j: nat)
    requires i < j < |IMAGE_EXTS|
    ensures MatchesExt(name, IMAGE_EXTS[i]) ==> !MatchesExt(name, IMAGE_EXTS[j])
  {
    if MatchesExt(name, IMAGE_EXTS[i]) {
      MatchesExtPenultimate(name, IMAGE_EXTS[i]);
    }
    if MatchesExt(name, IMAGE_EXTS[j]) {
      MatchesExtPenultimate(name, IMAGE_EXTS[j]);
    }
  }

  /** How often `e` is listed in the folder, if it is a screenshot at all. */
  function ImageCount(files: seq<FileEntry>, e: FileEntry): nat {
    if IsImageName(e.name) then multiset(files)[e] else 0
  }

  /** The collected screenshots are exactly the folder's non-hidden entries
      with one of the four extensions, each as often as it is listed: no
      pattern picks up a name another pattern already matched. */
  lemma CollectedAreImages(files: seq<FileEntry>)
    ensures forall e :: multiset(Collected(files, |IMAGE_EXTS|))[e] == ImageCount(files, e)
  {
    var g0, g1, g2, g3 := Glob(files, IMAGE_EXTS[0]), Glob(files, IMAGE_EXTS[1]),
      Glob(files, IMAGE_EXTS[2]), Glob(files, IMAGE_EXTS[3]);
    var all := Collected(files, |IMAGE_EXTS|);
    assert |IMAGE_EXTS| == 4;
    assert Collected(files, 1) == g0;
    assert Collected(files, 2) == g0 + g1;
    assert Collected(files, 3) == g0 + g1 + g2;
    assert all == g0 + g1 + g2 + g3;
    assert multiset(all) == multiset(g0) + multiset(g1) + multiset(g2) + multiset(g3);
    GlobCounts(files, IMAGE_EXTS[0]);
    GlobCounts(files, IMAGE_EXTS[1]);
    GlobCounts(files, IMAGE_EXTS[2]);
    GlobCounts(files, IMAGE_EXTS[3]);
    forall e
      ensures multiset(Collected(files, |IMAGE_EXTS|))[e] == ImageCount(files, e)
    {
      var m := multiset(files)[e];
      var b0, b1, b2, b3 := MatchesExt(e.name, IMAGE_EXTS[0]), MatchesExt(e.name, IMAGE_EXTS[1]),
        MatchesExt(e.name, IMAGE_EXTS[2]), MatchesExt(e.name, IMAGE_EXTS[3]);
      assert multiset(all)[e] == multiset(g0)[e] + multiset(g1)[e] + multiset(g2)[e] + multiset(g3)[e];
      assert multiset(g0)[e] == (if b0 then m else 0);
      assert multiset(g1)[e] == (if b1 then m else 0);
      assert multiset(g2)[e] == (if b2 then m else 0);
      assert multiset(g3)[e] == (if b3 then m else 0);
      ExtsDisjoint(e.name, 0, 1);
      ExtsDisjoint(e.name, 0, 2);
      ExtsDisjoint(e.name, 0, 3);
      ExtsDisjoint(e.name, 1, 2);
      ExtsDisjoint(e.name, 1, 3);
      ExtsDisjoint(e.name, 2, 3);
      assert IsImageName(e.name) <==> b0 || b1 || b2 || b3;
    }
  }

  // ------------------------------------------------- the page name as a pattern

  /** `glob` reads `*`, `?` and `[` in any path component as wildcards, the
      page folder's name included. */
  predicate HasMagic(p: string) {
    exists i :: 0 <= i < |p| && p[i] in "*?["
  }

  predicate Hidden(name: string) {
    |name| > 0 && name[0] == '.'
  }

  /** The first `c` at or after index `j`. */
  function FindFrom(p: string, c: char, j: nat): (r: Option<nat>)
    decreases |p| - j
    ensures r.Some? ==> j <= r.value < |p| && p[r.value] == c
    ensures r.None? ==> forall k :: j <= k < |p| ==> p[k] != c
  {
    if j >= |p| then None else if p[j] == c then Some(j) else FindFrom(p, c, j + 1)
  }

  /** Where the bracket expression that `p` opens closes, as `fnmatch` scans
      it: a `!` right after the `[` negates, a `]` right after that is a member,
      and with no closing `]` the `[` is an ordinary character. */
  function ClassClose(p: string): (r: Option<nat>)
    requires |p| > 0 && p[0] == '['
    ensures r.Some? ==> (if |p| > 1 && p[1] == '!' then 2 else 1) <= r.value < |p| && p[r.value] == ']'
  {
    var j := if |p| > 1 && p[1] == '!' then 2 else 1;
    var j' := if j < |p| && p[j] == ']' then j + 1 else j;
    FindFrom(p, ']', j')
  }

  /** Membership in a bracket expression's members: `a-z` is a range (empty
      when reversed), any other character stands for itself. */
  function InClass(m: string, c: char): (b: bool)
    ensures b ==> m != []
  {
    if m == [] then false
    else if |m| >= 3 && m[1] == '-' then (m[0] <= c <= m[2]) || InClass(m[3..], c)
    else m[0] == c || InClass(m[1..], c)
  }

  /** `fnmatch.fnmatch` on POSIX: `*` matches any run of characters, `?` any
      one, a bracket expression one character in (or, negated, not in) it, and
      every other character itself; the whole name must match. */
  function FnMatch(p: string, n: string): (b: bool)
    decreases |p| + |n|
    ensures b && !HasMagic(p) ==> n == p
  {
    if p == [] then n == []
    else if p[0] == '*' then FnMatch(p[1..], n) || (n != [] && FnMatch(p, n[1..]))
    else if p[0] == '?' then n != [] && FnMatch(p[1..], n[1..])
    else if p[0] == '[' && ClassClose(p).Some? then
      var c := ClassClose(p).value;
      var neg := |p| > 1 && p[1] == '!';
      var members := if neg then p[2..c] else p[1..c];
      n != [] && InClass(members, n[0]) != neg && FnMatch(p[c + 1..], n[1..])
    else
      var b := n != [] && n[0] == p[0] && FnMatch(p[1..], n[1..]);
      assert b && !HasMagic(p) ==> !HasMagic(p[1..]) by {
        if !HasMagic(p) {
          forall i | 0 <= i < |p[1..]| ensures p[1..][i] !in "*?[" {
            assert p[1..][i] == p[i + 1];
          }
        }
      }
      b
  }

  /** The directories `glob` visits for `root / page / "*.ext"`, in listing
      order: a name with no wildcard names that one directory; a name with one
      is matched against every directory of the root, hidden ones only when
      the name itself is hidden. */
  function GlobDirs(root: seq<Folder>, page: string): seq<Folder> {
    if root == [] then []
    else
      var d := root[0];
      var keep := d.isDir &&
        if HasMagic(page) then FnMatch(page, d.name) && (Hidden(d.name) ==> Hidden(page))
        else d.name == page;
      (if keep then [d] else []) + GlobDirs(root[1..], page)
  }

  /** One pattern's matches, directory after directory. */
  function GlobIn(dirs: seq<Folder>, ext: string): seq<FileEntry> {
    if dirs == [] then [] else Glob(dirs[0].files, ext) + GlobIn(dirs[1..], ext)
  }

  /** `imgs` after the first `n` patterns as lines 72-74 are written:
      `glob.glob(str(folder / ext))` with the page's name read as a pattern. */
  function CollectedAsWritten(root: seq<Folder>, page: string, n: nat): seq<FileEntry>
    requires n <= |IMAGE_EXTS|
  {
    if n == 0 then [] else CollectedAsWritten(root, page, n - 1) + GlobIn(GlobDirs(root, page), IMAGE_EXTS[n - 1])
  }

  lemma {:induction false} GlobDirsNone(root: seq<Folder>, page: string)
    requires !HasMagic(page) && forall i :: 0 <= i < |root| ==> root[i].name != page
    ensures GlobDirs(root, page) == []
  {
    if root != [] {
      GlobDirsNone(root[1..], page);
    }
  }

  lemma {:induction false} GlobDirsLiteral(root: seq<Folder>, k: nat)
    requires k < |root| && root[k].isDir && !HasMagic(root[k].name)
    requires forall i, j :: 0 <= i < |root| && 0 <= j < |root| && root[i].name == root[j].name ==> i == j
    ensures GlobDirs(root, root[k].name) == [root[k]]
  {
    var page := root[k].name;
    if k == 0 {
      assert forall i :: 0 <= i < |root[1..]| ==> root[1..][i].name == root[i + 1].name;
      GlobDirsNone(root[1..], page);
    } else {
      assert root[1..][k - 1] == root[k];
      GlobDirsLiteral(root[1..], k - 1);
    }
  }

  /** A page whose name holds no `*`, `?` or `[` collects exactly its own
      screenshots, as `Collected` has it (directory names are unique). */
  lemma {:induction false} LiteralPageGlobsItself(root: seq<Folder>, k: nat, n: nat)
    requires k < |root| && root[k].isDir && !HasMagic(root[k].name) && n <= |IMAGE_EXTS|
    requires forall i, j :: 0 <= i < |root| && 0 <= j < |root| && root[i].name == root[j].name ==> i == j
    ensures CollectedAsWritten(root, root[k].name, n) == Collected(root[k].files, n)
  {
    if n > 0 {
      LiteralPageGlobsItself(root, k, n - 1);
      GlobDirsLiteral(root, k);
      var ext := IMAGE_EXTS[n - 1];
      assert GlobIn([root[k]], ext) == Glob(root[k].files, ext) + GlobIn([], ext);
    }
  }

  /** A common prefix without wildcards matches itself and drops out. */
  lemma {:induction false} FnMatchLiteralPrefix(p: string, n: string, k: nat)
    requires k <= |p| && k <= |n| && p[..k] == n[..k]
    requires forall i :: 0 <= i < k ==> p[i] !in "*?["
    ensures FnMatch(p, n) == FnMatch(p[k..], n[k..])
  {
    if k > 0 {
      assert p[0] == n[0];
      assert p[1..][..k - 1] == n[1..][..k - 1];
      FnMatchLiteralPrefix(p[1..], n[1..], k - 1);
      assert p[1..][k - 1..] == p[k..] && n[1..][k - 1..] == n[k..];
    }
  }

  lemma {:induction false} GlobKeepsAll(files: seq<FileEntry>, ext: string)
    requires forall i :: 0 <= i < |files| ==> MatchesExt(files[i].name, ext)
    ensures Glob(files, ext) == files
  {
    if files != [] {
      GlobKeepsAll(files[1..], ext);
    }
  }

  lemma {:induction false} GlobDropsAll(files: seq<FileEntry>, ext: string)
    requires forall i :: 0 <= i < |files| ==> !MatchesExt(files[i].name, ext)
    ensures Glob(files, ext) == []
  {
    if files != [] {
      GlobDropsAll(files[1..], ext);
    }
  }

  /** A `.png` name matches none of the other three patterns. */
  lemma PngOnly(name: string)
    requires MatchesExt(name, IMAGE_EXTS[0])
    ensures !MatchesExt(name, IMAGE_EXTS[1]) && !MatchesExt(name, IMAGE_EXTS[2]) && !MatchesExt(name, IMAGE_EXTS[3])
  {
    ExtsDisjoint(name, 0, 1);
    ExtsDisjoint(name, 0, 2);
    ExtsDisjoint(name, 0, 3);
  }

  /** A folder of `.png` screenshots collects all of them, in listing order. */
  lemma CollectedPngs(files: seq<FileEntry>)
    requires forall i :: 0 <= i < |files| ==> MatchesExt(files[i].name, IMAGE_EXTS[0])
    ensures Collected(files, |IMAGE_EXTS|) == files
  {
    forall i | 0 <= i < |files| ensures !MatchesExt(files[i].name, IMAGE_EXTS[1]) {
      PngOnly(files[i].name);
    }
    forall i | 0 <= i < |files| ensures !MatchesExt(files[i].name, IMAGE_EXTS[2]) {
      PngOnly(files[i].name);
    }
    forall i | 0 <= i < |files| ensures !MatchesExt(files[i].name, IMAGE_EXTS[3]) {
      PngOnly(files[i].name);
    }
    GlobKeepsAll(files, IMAGE_EXTS[0]);
    GlobDropsAll(files, IMAGE_EXTS[1]);
    GlobDropsAll(files, IMAGE_EXTS[2]);
    GlobDropsAll(files, IMAGE_EXTS[3]);
    assert Collected(files, 1) == files;
    assert Collected(files, 2) == files;
    assert Collected(files, 3) == files;
  }

  /** The compared pair comes from the collected screenshots. */
  lemma PairFromImages(imgs: seq<FileEntry>)
    requires |imgs| >= 2
    ensures Pair(imgs).0 in imgs && Pair(imgs).1 in imgs
  {
    SortedFromInput(imgs, ByKey(), |imgs| - 2);
    SortedFromInput(imgs, ByKey(), |imgs| - 1);
  }

  /** Screenshots whose stems are too short for a timestamp, each with a
      modification time, all have mtime keys. */
  lemma {:induction false} ShortStemsOneKind(imgs: seq<FileEntry>)
    requires forall i :: 0 <= i < |imgs| ==> |Stem(imgs[i].name)| < 4 && imgs[i].mtime.Some?
    ensures OneKind(imgs)
  {
    forall i | 0 <= i < |imgs| ensures Kind(KeyOf(imgs[i])) == Kind(KeyOf(imgs[0])) {
      MtimeKeyForShortStem(imgs[i].name, imgs[i].mtime);
      MtimeKeyForShortStem(imgs[0].name, imgs[0].mtime);
    }
  }

  /** Two or more captures of one key kind, all decoding to 7x7: the page is
      compared. */
  lemma SevenSquareCompared(f: Folder, imgs: seq<FileEntry>, t: Thresholds)
    requires |imgs| >= 2 && OneKind(imgs)
    requires forall i :: 0 <= i < |imgs| ==> imgs[i].decoded == Some((7, 7))
    ensures ComparePair(f, imgs, t).Compared?
  {
    PairFromImages(imgs);
    assert Pair(imgs).0.decoded == Some((7, 7)) && Pair(imgs).1.decoded == Some((7, 7));
    PageOutcomes(f, imgs, t);
    ComparePairCases(f, imgs, t);
  }

  lemma {:induction false} CollectedNone(n: nat)
    requires n <= |IMAGE_EXTS|
    ensures Collected([], n) == []
  {
    if n > 0 {
      CollectedNone(n - 1);
    }
  }

  lemma GlobInSecond(root: seq<Folder>, ext: string)
    requires |root| == 2 && root[0].files == []
    ensures GlobIn(root, ext) == Glob(root[1].files, ext)
  {
    assert root[1..][0] == root[1] && root[1..][1..] == [];
    assert GlobIn(root[1..], ext) == Glob(root[1].files, ext) + GlobIn([], ext);
  }

  /** Over two directories of which the first is empty, every pattern finds
      what it finds in the second. */
  lemma {:induction false} AsWrittenSecondOnly(root: seq<Folder>, page: string, n: nat)
    requires |root| == 2 && root[0].files == [] && GlobDirs(root, page) == root && n <= |IMAGE_EXTS|
    ensures CollectedAsWritten(root, page, n) == Collected(root[1].files, n)
  {
    if n > 0 {
      AsWrittenSecondOnly(root, page, n - 1);
      GlobInSecond(root, IMAGE_EXTS[n - 1]);
    }
  }

  /** A wildcard page with no screenshots of its own, next to a directory its
      name matches, collects that directory's screenshots. */
  lemma PatternPoolsSibling(root: seq<Folder>)
    requires |root| == 2 && root[0].isDir && root[1].isDir && root[0].files == []
    requires HasMagic(root[0].name) && !Hidden(root[0].name) && !Hidden(root[1].name)
    requires FnMatch(root[0].name, root[0].name) && FnMatch(root[0].name, root[1].name)
    ensures CollectedAsWritten(root, root[0].name, |IMAGE_EXTS|) == Collected(root[1].files, |IMAGE_EXTS|)
  {
    var page := root[0].name;
    assert root[1..][0] == root[1] && root[1..][1..] == [];
    assert GlobDirs(root[1..], page) == [root[1]] + GlobDirs([], page);
    assert GlobDirs(root, page) == root;
    AsWrittenSecondOnly(root, page, |IMAGE_EXTS|);
  }

  /** A wildcard page whose name does not match itself collects nothing. */
  lemma {:induction false} SelfMissCollectsNothing(f: Folder, n: nat)
    requires HasMagic(f.name) && !FnMatch(f.name, f.name) && n <= |IMAGE_EXTS|
    ensures CollectedAsWritten([f], f.name, n) == []
  {
    assert GlobDirs([f], f.name) == [] + GlobDirs([], f.name);
    if n > 0 {
      SelfMissCollectsNothing(f, n - 1);
    }
  }

  lemma StarMatchesBoth()
    ensures HasMagic("v*") && FnMatch("v*", "v*") && FnMatch("v*", "va")
  {
    assert "v*"[1] == '*';
    assert FnMatch("", "") && FnMatch("*", "");
    assert FnMatch("*", "*") && FnMatch("*", "a");
    assert "v*"[1..] == "*" && "va"[1..] == "a";
  }

  /** Screenshots like those of the counterexamples below: `.png` files whose
      stems are too short for a timestamp, each with a modification time, each
      decoding to 7x7. */
  predicate WitnessShots(s: seq<FileEntry>) {
    forall i :: 0 <= i < |s| ==>
      && MatchesExt(s[i].name, IMAGE_EXTS[0]) && |Stem(s[i].name)| < 4
      && s[i].mtime.Some? && s[i].decoded == Some((7, 7))
  }

  /** `1.png` with mtime 1 and `2.png` with mtime 2 are such screenshots. */
  lemma ShotsExist()
    ensures WitnessShots([FileEntry("1.png", Some(1.0), Some((7, 7))), FileEntry("2.png", Some(2.0), Some((7, 7)))])
  {
    StemDropsExtension("1.png", "png");
    StemDropsExtension("2.png", "png");
  }

  /** Any folder holding two such screenshots is compared. */
  lemma ShotsCompared(f: Folder, shots: seq<FileEntry>, t: Thresholds)
    requires |shots| == 2 && WitnessShots(shots)
    ensures ComparePair(f, shots, t).Compared?
  {
    ShortStemsOneKind(shots);
    SevenSquareCompared(f, shots, t);
  }

  /** A page named `v*`, with no screenshots, beside a page `va` with two: as
      written, `v*` collects `va`'s screenshots and is compared, where its own
      folder would have been skipped. */
  lemma StarPagePoolsSiblings(shots: seq<FileEntry>, t: Thresholds)
    requires |shots| == 2 && WitnessShots(shots)
    ensures var root := [Folder("v*", true, [], Measure(0.0, 0, [])), Folder("va", true, shots, Measure(0.0, 0, []))];
      && Collected(root[0].files, |IMAGE_EXTS|) == []
      && CollectedAsWritten(root, root[0].name, |IMAGE_EXTS|) == shots
      && ComparePage(root[0], t) == TooFewImages
      && ComparePair(root[0], CollectedAsWritten(root, root[0].name, |IMAGE_EXTS|), t).Compared?
  {
    var root := [Folder("v*", true, [], Measure(0.0, 0, [])), Folder("va", true, shots, Measure(0.0, 0, []))];
    CollectedNone(|IMAGE_EXTS|);
    StarMatchesBoth();
    CollectedPngs(shots);
    PatternPoolsSibling(root);
    ShotsCompared(root[0], shots, t);
  }

  /** A bracket expression that leaves out a name's first character makes
      the match fail. */
  lemma ClassMisses(p: string, n: string)
    requires |p| > 1 && p[0] == '[' && p[1] != '!' && ClassClose(p).Some? && n != []
    requires !InClass(p[1..ClassClose(p).value], n[0])
    ensures !FnMatch(p, n)
  {
  }

  lemma MobileClass()
    ensures ClassClose("[mobile]") == Some(7)
    ensures !InClass("mobile", '[')
  {
    var q := "[mobile]";
    assert forall k :: 0 <= k < |q| && q[k] == ']' ==> k == 7;
    assert q[7] == ']';
  }

  /** A wildcard-free prefix does not change whether a name matches itself. */
  lemma LiteralPrefixSelfMatch(pre: string, q: string)
    requires forall i :: 0 <= i < |pre| ==> pre[i] !in "*?["
    ensures FnMatch(pre + q, pre + q) == FnMatch(q, q)
  {
    FnMatchLiteralPrefix(pre + q, pre + q, |pre|);
    assert (pre + q)[|pre|..] == q;
  }

  /** `Home [mobile]` as a pattern does not match itself: `[mobile]` stands for
      one character of `mobile`, and `[` is not one of them. */
  lemma BracketNameMissesItself()
    ensures !FnMatch("Home [mobile]", "Home [mobile]")
  {
    var q := "[mobile]";
    MobileClass();
    assert q[1..7] == "mobile";
    ClassMisses(q, q);
    LiteralPrefixSelfMatch("Home ", q);
    assert "Home " + q == "Home [mobile]";
  }

  /** A page named `Home [mobile]` with two screenshots: as written, it
      collects none of them and is skipped, where its own folder would have
      been compared. */
  lemma BracketPageMissesOwn(shots: seq<FileEntry>, t: Thresholds)
    requires |shots| == 2 && WitnessShots(shots)
    ensures var f := Folder("Home [mobile]", true, shots, Measure(0.0, 0, []));
      && Collected(f.files, |IMAGE_EXTS|) == shots
      && CollectedAsWritten([f], f.name, |IMAGE_EXTS|) == []
      && ComparePage(f, t).Compared?
      && ComparePair(f, CollectedAsWritten([f], f.name, |IMAGE_EXTS|), t) == TooFewImages
  {
    var page := "Home [mobile]";
    var f := Folder(page, true, shots, Measure(0.0, 0, []));
    BracketNameMissesItself();
    assert page[5] == '[';
    CollectedPngs(shots);
    SelfMissCollectsNothing(f, |IMAGE_EXTS|);
    ShotsCompared(f, shots, t);
  }

  // ------------------------------------------------------------- choosing the pair

  function KeyOf(e: FileEntry): SortKey {
    CaptureKey(e.name, e.mtime)
  }

  /** `sorted(imgs, key=natural_key)` compares the keys with `<`. */
  function ByKey(): (FileEntry, FileEntry) -> bool {
    (x: FileEntry, y: FileEntry) => KeyLt(KeyOf(x), KeyOf(y))
  }

  /** All keys are of one kind, so every comparison the sort makes is defined. */
  predicate OneKind(s: seq<FileEntry>) {
    forall i :: 0 <= i < |s| ==> Kind(KeyOf(s[i])) == Kind(KeyOf(s[0]))
  }

  lemma ByKeyStrictWeak(k: KeyKind)
    ensures StrictWeakOn(ByKey(), (e: FileEntry) => Kind(KeyOf(e)) == k)
  {
    var lt := ByKey();
    var dom := (e: FileEntry) => Kind(KeyOf(e)) == k;
    forall a, b | dom(a) && dom(b) && lt(a, b) ensures !lt(b, a) {
      KeyLtAsymmetric(KeyOf(a), KeyOf(b));
    }
    forall a, b, c | dom(a) && dom(b) && dom(c) && lt(a, c) ensures lt(a, b) || lt(b, c) {
      KeyLtNegTransitive(KeyOf(a), KeyOf(b), KeyOf(c));
    }
  }

  lemma OneKindAllIn(s: seq<FileEntry>)
    requires |s| > 0 && OneKind(s)
    ensures AllIn(s, (e: FileEntry) => Kind(KeyOf(e)) == Kind(KeyOf(s[0])))
  {
    forall x | x in s ensures Kind(KeyOf(x)) == Kind(KeyOf(s[0])) {
      var i :| 0 <= i < |s| && s[i] == x;
    }
  }

  /** `imgs[-2], imgs[-1]` of the sorted screenshots. */
  function Pair(imgs: seq<FileEntry>): (p: (FileEntry, FileEntry))
    requires |imgs| >= 2
  {
    var sorted := Sort(imgs, ByKey());
    (sorted[|sorted| - 2], sorted[|sorted| - 1])
  }

  /** `imgs[k]` and `imgs[k']` are the compared pair `(prev, curr)` read
      backwards: nothing has a later key than `curr`; `curr` aside, nothing has
      a later key than `prev`; and every capture collected after `curr` has an
      earlier key, so among captures sharing the latest key `curr` is the one
      collected last. */
  predicate LatestTwoAt(imgs: seq<FileEntry>, k: nat, k': nat)
    requires |imgs| >= 2
  {
    && k < |imgs| && k' < |imgs| && k != k'
    && imgs[k] == Pair(imgs).1 && imgs[k'] == Pair(imgs).0
    && (forall j :: 0 <= j < |imgs| ==> !ByKey()(imgs[k], imgs[j]))
    && (forall j :: 0 <= j < |imgs| && j != k ==> !ByKey()(imgs[k'], imgs[j]))
    && (forall j :: k < j < |imgs| ==> ByKey()(imgs[j], imgs[k]))
  }

  /** The pair compared is the two latest captures (the sort is stable). */
  lemma PairIsLatestTwo(imgs: seq<FileEntry>)
    requires |imgs| >= 2 && OneKind(imgs)
    ensures exists k, k' :: LatestTwoAt(imgs, k, k')
  {
    SortedCapturesLastTwo(imgs);
    var k := LastMax(imgs, ByKey());
    var m := LastMax(RemoveAt(imgs, k), ByKey());
    var k' := if m < k then m else m + 1;
    var sorted := Sort(imgs, ByKey());
    assert Pair(imgs) == (sorted[|imgs| - 2], sorted[|imgs| - 1]);
    assert LatestTwoAt(imgs, k, k');
  }

  lemma SortedCapturesLastTwo(imgs: seq<FileEntry>)
    requires |imgs| >= 2 && OneKind(imgs)
    ensures var lt := ByKey(); var k := LastMax(imgs, lt); var rest := RemoveAt(imgs, k);
      var m := LastMax(rest, lt); var k' := if m < k then m else m + 1;
      && k' < |imgs| && k != k'
      && imgs[k] == Sort(imgs, lt)[|imgs| - 1] && imgs[k'] == Sort(imgs, lt)[|imgs| - 2]
      && (forall j :: 0 <= j < |imgs| ==> !lt(imgs[k], imgs[j]))
      && (forall j :: 0 <= j < |imgs| && j != k ==> !lt(imgs[k'], imgs[j]))
      && (forall j :: k < j < |imgs| ==> lt(imgs[j], imgs[k]))
  {
    var dom := (e: FileEntry) => Kind(KeyOf(e)) == Kind(KeyOf(imgs[0]));
    ByKeyStrictWeak(Kind(KeyOf(imgs[0])));
    OneKindAllIn(imgs);
    SortLastTwo(imgs, ByKey(), dom);
  }

  // ------------------------------------------------------------- one page

  /** The path `heat_path` names, relative to the run folder. */
  function HeatmapPath(page: string, prev: string, curr: string): string {
    page + "/diff_" + prev + "_vs_" + curr + ".png"
  }

  /** Lines 75-110 for a page whose screenshots `imgs` have been collected. */
  function ComparePair(f: Folder, imgs: seq<FileEntry>, t: Thresholds): PageResult
  {
    if |imgs| >= 2 && !OneKind(imgs) then Failed(MixedKeyKinds)
    else if |imgs| < 2 then TooFewImages
    else
      var (a, b) := Pair(imgs);
      if a.decoded.None? || b.decoded.None? then Unreadable
      else
        var (ga, gb) := Normalize(Read(a.name, a.decoded.value.0, a.decoded.value.1),
                                  Read(b.name, b.decoded.value.0, b.decoded.value.1));
        if ga.height < 7 || ga.width < 7 then Failed(SsimWindow)
        else
          var m := f.measure;
          var changed := Changed(t, m.score, m.pdelta);
          Compared(Row(f.name, a.name, b.name, m.score, m.pdelta, changed,
                       ZoneLabel(t, m.score, m.pdelta, m.norm), HeatmapPath(f.name, a.name, b.name)))
  }

  /** A page aborts the run exactly when two or more screenshots have keys of
      different kinds, is skipped with fewer than two, and otherwise its row
      carries the later two captures, the folder's measures, the flag and the
      zone label. */
  lemma ComparePairCases(f: Folder, imgs: seq<FileEntry>, t: Thresholds)
    ensures var r := ComparePair(f, imgs, t);
      && (r == Failed(MixedKeyKinds) <==> |imgs| >= 2 && !OneKind(imgs))
      && (r == TooFewImages <==> |imgs| < 2)
      && (r.Compared? ==>
            && OneKind(imgs) && |imgs| >= 2
            && r.row.page == f.name && (r.row.prev, r.row.curr) == (Pair(imgs).0.name, Pair(imgs).1.name)
            && r.row.score == f.measure.score && r.row.pdelta == f.measure.pdelta
            && r.row.changed == Changed(t, f.measure.score, f.measure.pdelta)
            && (r.row.zone == "" <==> !r.row.changed)
            && (r.row.changed ==> r.row.zone == ZoneName(GuessZone(f.measure.norm))))
  {
  }

  /** A page's outcome: unreadable only when one of its two latest captures
      does not decode, and SSIM refuses the pair exactly when the smaller
      height or the smaller width of the two is under 7. */
  lemma PageOutcomes(f: Folder, imgs: seq<FileEntry>, t: Thresholds)
    requires |imgs| >= 2 && OneKind(imgs)
    ensures var (a, b) := Pair(imgs);
      && (ComparePair(f, imgs, t) == Unreadable <==> a.decoded.None? || b.decoded.None?)
      && (ComparePair(f, imgs, t) == Failed(SsimWindow) <==>
            a.decoded.Some? && b.decoded.Some? &&
            (Min(a.decoded.value.0, b.decoded.value.0) < 7 || Min(a.decoded.value.1, b.decoded.value.1) < 7))
  {
  }

  /** `structural_similarity(..., full=True)` returns its map with the shape of
      the two images it compares, and the min-max normalisation keeps that
      shape: `norm` has the pair's smaller height and smaller width. */
  predicate NormFitsPair(m: Measure, a: FileEntry, b: FileEntry)
    requires a.decoded.Some? && b.decoded.Some?
  {
    && |m.norm| == Min(a.decoded.value.0, b.decoded.value.0)
    && Cols(m.norm) == Min(a.decoded.value.1, b.decoded.value.1)
  }

  /** When `norm` has the shape of a pair SSIM accepts, the label of a flagged
      pair names the band of greatest mean, and the first such band among
      equals; SSIM's 7-pixel minimum leaves every band measured, so no mean is
      `NaN`. */
  lemma FittedZoneIsFirstLoudest(t: Thresholds, m: Measure, a: FileEntry, b: FileEntry)
    requires a.decoded.Some? && b.decoded.Some? && NormFitsPair(m, a, b)
    requires Min(a.decoded.value.0, b.decoded.value.0) >= 7 && Min(a.decoded.value.1, b.decoded.value.1) >= 7
    requires Changed(t, m.score, m.pdelta)
    ensures var bs := Bands(m.norm); var i := Index(GuessZone(m.norm));
      && ZoneLabel(t, m.score, m.pdelta, m.norm) == ZoneName(ZoneAt(i))
      && (forall j :: 0 <= j < 3 ==> bs[j].1.Value?)
      && (forall j :: 0 <= j < 3 ==> bs[j].1.v <= bs[i].1.v)
      && (forall j :: 0 <= j < i ==> bs[j].1.v < bs[i].1.v)
  {
    GuessZoneIsFirstLoudest(m.norm);
  }

  /** A flagged row of a page whose `norm` has the compared pair's shape names
      the band of greatest mean, the first among equals. */
  lemma {:induction false} FlaggedZoneIsFirstLoudest(f: Folder, imgs: seq<FileEntry>, t: Thresholds)
    requires |imgs| >= 2 && OneKind(imgs)
    requires Pair(imgs).0.decoded.Some? && Pair(imgs).1.decoded.Some?
    requires NormFitsPair(f.measure, Pair(imgs).0, Pair(imgs).1)
    requires ComparePair(f, imgs, t).Compared? && ComparePair(f, imgs, t).row.changed
    ensures var g := f.measure.norm; var bs := Bands(g); var i := Index(GuessZone(g));
      && ComparePair(f, imgs, t).row.zone == ZoneName(ZoneAt(i))
      && (forall j :: 0 <= j < 3 ==> bs[j].1.Value?)
      && (forall j :: 0 <= j < 3 ==> bs[j].1.v <= bs[i].1.v)
      && (forall j :: 0 <= j < i ==> bs[j].1.v < bs[i].1.v)
  {
    PageOutcomes(f, imgs, t);
    FittedZoneIsFirstLoudest(t, f.measure, Pair(imgs).0, Pair(imgs).1);
  }

  function ComparePage(f: Folder, t: Thresholds): PageResult
  {
    ComparePair(f, Collected(f.files, |IMAGE_EXTS|), t)
  }

  // ------------------------------------------------------------- all pages

  /** A page's name with its result. */
  datatype PageReport = PageReport(page: string, result: PageResult)

  function Results(pages: seq<Folder>, t: Thresholds): seq<PageReport> {
    seq(|pages|, i requires 0 <= i < |pages| => PageReport(pages[i].name, ComparePage(pages[i], t)))
  }

  /** One turn of the loop of lines 70-110: a compared page appends its row, a
      skipped page adds nothing, a failing page ends the loop. */
  function Step(p: Progress, r: PageReport): Progress {
    match p
    case Stopped(_, _) => p
    case Done(rows) =>
      match r.result
      case Compared(row) => Done(rows + [row])
      case Failed(why) => Stopped(r.page, why)
      case _ => Done(rows)
  }

  /** The loop over all page results, in order. */
  function Gather(rs: seq<PageReport>): Progress {
    if rs == [] then Done([]) else Step(Gather(rs[..|rs| - 1]), rs[|rs| - 1])
  }

  lemma GatherPrefix(rs: seq<PageReport>, i: nat)
    requires i < |rs|
    ensures Gather(rs[..i + 1]) == Step(Gather(rs[..i]), rs[i])
  {
    assert rs[..i + 1][..i] == rs[..i];
  }

  function RowOf(r: PageReport): seq<Row> {
    if r.result.Compared? then [r.result.row] else []
  }

  /** Reference definition: the rows of the compared pages, front to back. */
  function ComparedRows(rs: seq<PageReport>): seq<Row> {
    if rs == [] then [] else RowOf(rs[0]) + ComparedRows(rs[1..])
  }

  predicate NoFailure(rs: seq<PageReport>) {
    forall i :: 0 <= i < |rs| ==> !rs[i].result.Failed?
  }

  lemma {:induction false} ComparedRowsSnoc(rs: seq<PageReport>)
    requires |rs| > 0
    ensures ComparedRows(rs) == ComparedRows(rs[..|rs| - 1]) + RowOf(rs[|rs| - 1])
  {
    if |rs| > 1 {
      var init := rs[..|rs| - 1];
      assert init[1..] == rs[1..][..|rs[1..]| - 1];
      assert init[0] == rs[0];
      ComparedRowsSnoc(rs[1..]);
    }
  }

  /** Without a failing page the loop collects the rows of the compared pages
      in page order, skipping the others; with one it stops at the first
      failing page, whose exception ends the run. */
  lemma {:induction false} GatherCharacterised(rs: seq<PageReport>)
    ensures Gather(rs).Done? <==> NoFailure(rs)
    ensures Gather(rs).Done? ==> Gather(rs).rows == ComparedRows(rs)
    ensures Gather(rs).Stopped? ==> exists i ::
      && 0 <= i < |rs| && rs[i] == PageReport(Gather(rs).page, Failed(Gather(rs).why))
      && NoFailure(rs[..i])
  {
    if rs != [] {
      var n := |rs|;
      var init := rs[..n - 1];
      GatherCharacterised(init);
      ComparedRowsSnoc(rs);
      if Gather(init).Done? && !rs[n - 1].result.Failed? {
        forall i | 0 <= i < n ensures !rs[i].result.Failed? {
          if i < n - 1 {
            assert rs[i] == init[i];
          }
        }
      }
      if Gather(init).Stopped? {
        var i :| 0 <= i < |init| && init[i] == PageReport(Gather(init).page, Failed(Gather(init).why))
          && NoFailure(init[..i]);
        assert rs[i] == init[i] && rs[..i] == init[..i];
      } else if rs[n - 1].result.Failed? {
        assert rs[..n - 1] == init;
      }
    }
  }

  // ------------------------------------------------------------- the run

  /** `sorted(pages_root.glob("*"))`: paths under one root compare by name. */
  function ByName(): (Folder, Folder) -> bool {
    (x: Folder, y: Folder) => StrLt(x.name, y.name)
  }

  /** The directories among `s`, in order. */
  function Dirs(s: seq<Folder>): seq<Folder> {
    if s == [] then []
    else (if s[0].isDir then [s[0]] else []) + Dirs(s[1..])
  }

  /** `Dirs` keeps each directory as often as it occurs and drops the rest. */
  lemma {:induction false} DirsCounts(s: seq<Folder>)
    ensures forall x :: multiset(Dirs(s))[x] == if x.isDir then multiset(s)[x] else 0
  {
    if s != [] {
      assert s == [s[0]] + s[1..];
      DirsCounts(s[1..]);
    }
  }

  /** `folders` of line 67. */
  function Pages(root: seq<Folder>): seq<Folder> {
    Dirs(Sort(root, ByName()))
  }

  /** Line 116: `sort_values(["changed", "page"], ascending=[False, True])`. */
  function RowBefore(): (Row, Row) -> bool {
    (x: Row, y: Row) => (x.changed && !y.changed) || (x.changed == y.changed && StrLt(x.page, y.page))
  }

  /** What a run over the folders `pages`, in this order, produces. */
  function Outcome(pages: seq<Folder>, t: Thresholds): RunOutcome
  {
    match Gather(Results(pages, t))
    case Stopped(p, why) => Aborted(p, why)
    case Done(rows) =>
      if rows == [] then NoComparablePages else Summary(Sort(rows, RowBefore()))
  }

  function Run(root: seq<Folder>, t: Thresholds): RunOutcome
  {
    Outcome(Pages(root), t)
  }

  /** Lines 71-110 for one folder. */
  method VisitPage(folder: Folder, t: Thresholds) returns (result: PageResult)
    ensures result == ComparePage(folder, t)
  {
    var imgs := CollectImages(folder.files);
    result := ComparePair(folder, imgs, t);
  }

  /** The loop of lines 70-110 over the folders in order: the rows gathered, or
      the page whose exception ends it. */
  method VisitPages(folders: seq<Folder>, t: Thresholds) returns (p: Progress)
    ensures p == Gather(Results(folders, t))
  {
    ghost var rs := Results(folders, t);
    var rows: seq<Row> := [];
    for i := 0 to |folders|
      invariant Gather(rs[..i]) == Done(rows)
    {
      var folder := folders[i];
      var result := VisitPage(folder, t);
      assert rs[i] == PageReport(folder.name, result);
      GatherStep(rs, i, rows);
      match result {
        case Failed(why) =>
          return Stopped(folder.name, why);
        case Compared(row) =>
          rows := rows + [row];
        case _ =>
      }
    }
    assert rs[..|folders|] == rs;
    return Done(rows);
  }

  /** Lines 67-116. */
  method RunReport(root: seq<Folder>, t: Thresholds) returns (out: RunOutcome)
    ensures out == Run(root, t)
  {
    var folders := Pages(root);
    var p := VisitPages(folders, t);
    match p {
      case Stopped(page, why) =>
        out := Aborted(page, why);
      case Done(rows) =>
        if rows == [] {
          out := NoComparablePages;
        } else {
          out := Summary(Sort(rows, RowBefore()));
        }
    }
  }

  /** One turn of the loop, and the end of the run when that page fails. */
  lemma GatherStep(rs: seq<PageReport>, i: nat, rows: seq<Row>)
    requires i < |rs| && Gather(rs[..i]) == Done(rows)
    ensures Gather(rs[..i + 1]) == Step(Done(rows), rs[i])
    ensures rs[i].result.Failed? ==> Gather(rs) == Stopped(rs[i].page, rs[i].result.why)
  {
    GatherPrefix(rs, i);
    if rs[i].result.Failed? {
      GatherStaysStopped(rs, i + 1);
    }
  }

  /** Once a page has failed, later pages change nothing. */
  lemma {:induction false} GatherStaysStopped(rs: seq<PageReport>, i: nat)
    requires i <= |rs| && Gather(rs[..i]).Stopped?
    ensures Gather(rs) == Gather(rs[..i])
    decreases |rs| - i
  {
    if i < |rs| {
      var init := rs[..|rs| - 1];
      assert init[..i] == rs[..i];
      GatherStaysStopped(init, i);
    } else {
      assert rs[..i] == rs;
    }
  }

  lemma ByNameStrictWeak()
    ensures StrictWeakOn(ByName(), (x: Folder) => true)
  {
    var lt := ByName();
    forall a, b | lt(a, b) ensures !lt(b, a) {
      if StrLt(b.name, a.name) {
        StrLtTransitive(a.name, b.name, a.name);
        StrLtIrreflexive(a.name);
      }
    }
    forall a, b, c | lt(a, c) ensures lt(a, b) || lt(b, c) {
      StrLtTotal(a.name, b.name);
      if StrLt(b.name, a.name) {
        StrLtTransitive(b.name, a.name, c.name);
      }
    }
  }

  lemma RowBeforeStrictWeak()
    ensures StrictWeakOn(RowBefore(), (x: Row) => true)
  {
    var lt := RowBefore();
    forall a, b | lt(a, b) ensures !lt(b, a) {
      if a.changed == b.changed && StrLt(a.page, b.page) && StrLt(b.page, a.page) {
        StrLtTransitive(a.page, b.page, a.page);
        StrLtIrreflexive(a.page);
      }
    }
    forall a, b, c | lt(a, c) ensures lt(a, b) || lt(b, c) {
      if a.changed == b.changed == c.changed {
        StrLtTotal(a.page, b.page);
        if StrLt(b.page, a.page) {
          StrLtTransitive(b.page, a.page, c.page);
        }
      }
    }
  }

  /** The pages are visited in name order, and they are the root's directories. */
  lemma PagesInNameOrder(root: seq<Folder>)
    ensures forall i, j :: 0 <= i < j < |Pages(root)| ==> !StrLt(Pages(root)[j].name, Pages(root)[i].name)
    ensures forall x :: multiset(Pages(root))[x] == if x.isDir then multiset(root)[x] else 0
  {
    ByNameStrictWeak();
    var sorted := Sort(root, ByName());
    assert AllIn(root, (x: Folder) => true);
    SortIsSorted(root, ByName(), (x: Folder) => true);
    DirsSorted(sorted);
    DirsCounts(sorted);
  }

  lemma {:induction false} DirsSorted(s: seq<Folder>)
    requires SortedBy(s, ByName())
    ensures SortedBy(Dirs(s), ByName())
  {
    if s != [] {
      assert SortedBy(s[1..], ByName()) by {
        forall i, j | 0 <= i < j < |s[1..]| ensures !StrLt(s[1..][j].name, s[1..][i].name) {
          assert s[1..][j] == s[j + 1] && s[1..][i] == s[i + 1];
        }
      }
      DirsSorted(s[1..]);
      var d := Dirs(s[1..]);
      DirsCounts(s[1..]);
      forall x | x in d ensures !StrLt(x.name, s[0].name) {
        assert x in multiset(s[1..]);
        var j :| 0 <= j < |s[1..]| && s[1..][j] == x;
        assert s[j + 1] == x;
      }
    }
  }

  /** The summary: as many rows as compared pages, flagged rows first and, within
      each group, pages in name order. It is written only when no page failed
      and at least one was compared. */
  lemma RunSummary(pages: seq<Folder>, t: Thresholds)
    ensures var rs := Results(pages, t); var o := Outcome(pages, t);
      && (o.Summary? <==> NoFailure(rs) && ComparedRows(rs) != [])
      && (o == NoComparablePages <==> NoFailure(rs) && ComparedRows(rs) == [])
      && (o.Summary? ==>
            && multiset(o.rows) == multiset(ComparedRows(rs))
            && (forall i, j :: 0 <= i < j < |o.rows| && o.rows[j].changed ==> o.rows[i].changed)
            && (forall i, j :: 0 <= i < j < |o.rows| && o.rows[i].changed == o.rows[j].changed ==>
                  !StrLt(o.rows[j].page, o.rows[i].page)))
  {
    var rs := Results(pages, t);
    GatherCharacterised(rs);
    if Outcome(pages, t).Summary? {
      RowBeforeStrictWeak();
      SortIsSorted(ComparedRows(rs), RowBefore(), (x: Row) => true);
    }
  }

  /** A run aborts at the first page, in the order visited, whose comparison
      raises. */
  lemma RunAborts(pages: seq<Folder>, t: Thresholds)
    ensures var rs := Results(pages, t); var o := Outcome(pages, t);
      && (o.Aborted? <==> !NoFailure(rs))
      && (o.Aborted? ==> exists i ::
            && 0 <= i < |pages| && pages[i].name == o.page
            && ComparePage(pages[i], t) == Failed(o.why)
            && NoFailure(rs[..i]))
  {
    var rs := Results(pages, t);
    GatherCharacterised(rs);
    if Outcome(pages, t).Aborted? {
      var o := Outcome(pages, t);
      var i :| 0 <= i < |rs| && rs[i] == PageReport(o.page, Failed(o.why)) && NoFailure(rs[..i]);
      assert pages[i].name == o.page;
    }
  }
}
