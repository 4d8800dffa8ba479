/** Which stored copy of a duplicated MIB is active: the prediction shown before an upload
    against the path search that the compiler runs after it. */
module SourcePrecedence {
  import opened Text
  import opened Sorting

  datatype Suffix = Txt | Mib | My

  /** A stored source: its directory below the upload root ("" is the root itself), its file
      name and the MIB name its text declares. */
  datatype File = File(group: string, stem: string, suffix: Suffix, declared: string)

  function SuffixText(s: Suffix): string {
    match s case Txt => ".txt" case Mib => ".mib" case My => ".my"
  }

  function RelativePath(f: File): string {
    (if f.group == [] then [] else f.group + "/") + f.stem + SuffixText(f.suffix)
  }

  /* ---- source groups ---- */

  predicate GroupChar(c: char) {
    'a' <= c <= 'z' || '0' <= c <= '9' || c == '.' || c == '_' || c == '-'
  }

  function NormalizeSegments(parts: seq<string>): Result<seq<string>> {
    if parts == [] then Ok([])
    else
      var segment := Lower(Strip(parts[0]));
      if segment == [] then NormalizeSegments(parts[1..])
      else if segment == "." || segment == ".." || exists i | 0 <= i < |segment| :: !GroupChar(segment[i]) then
        Err("Source group may only contain letters, numbers, dot, dash, underscore, and forward slashes.")
      else
        match NormalizeSegments(parts[1..])
        case Err(e) => Err(e)
        case Ok(rest) => Ok([segment] + rest)
  }

  function ForwardSlashes(s: string): string {
    seq(|s|, i requires 0 <= i < |s| => if s[i] == '\\' then '/' else s[i])
  }

  function NormalizeSourceGroup(raw: string): Result<string> {
    var value := ForwardSlashes(Strip(raw));
    if value == [] then Ok("common")
    else
      match NormalizeSegments(Split(value, '/'))
      case Err(e) => Err(e)
      case Ok(segments) => Ok(if segments == [] then "common" else Join(segments, '/'))
  }

  /** A named (non-root) group in the form the precedence key leaves alone. */
  predicate NormalGroup(g: string) {
    g != [] && g != "." && IsLower(g) && Trimmed(g)
  }

  predicate GoodSegment(s: string) {
    s != [] && s != "." && s != ".." && forall i | 0 <= i < |s| :: GroupChar(s[i])
  }

  predicate GoodSegments(segments: seq<string>) {
    forall i | 0 <= i < |segments| :: GoodSegment(segments[i])
  }

  lemma {:induction false} NormalizedSegmentsAreGood(parts: seq<string>)
    ensures NormalizeSegments(parts).Ok? ==> GoodSegments(NormalizeSegments(parts).value)
  {
    if parts != [] {
      NormalizedSegmentsAreGood(parts[1..]);
    }
  }

  lemma GoodSegmentIsFixed(s: string)
    requires GoodSegment(s)
    ensures Lower(Strip(s)) == s && '/' !in s
  {
    StripFixedPoints(s);
    LowerIsIdentityOnLower(s);
  }

  lemma GoodSegmentFirst(s: string, rest: seq<string>)
    requires GoodSegment(s)
    ensures NormalizeSegments([s] + rest) ==
      match NormalizeSegments(rest) case Err(e) => Err(e) case Ok(r) => Ok([s] + r)
  {
    GoodSegmentIsFixed(s);
    assert ([s] + rest)[1..] == rest;
  }

  lemma {:induction false} GoodSegmentsAreFixed(segments: seq<string>)
    requires GoodSegments(segments)
    ensures NormalizeSegments(segments) == Ok(segments)
  {
    if segments != [] {
      GoodSegmentsAreFixed(segments[1..]);
      GoodSegmentFirst(segments[0], segments[1..]);
      assert segments == [segments[0]] + segments[1..];
    }
  }

  lemma {:induction false} JoinOfGoodSegments(segments: seq<string>)
    requires segments != [] && GoodSegments(segments)
    ensures var g := Join(segments, '/');
      && NormalGroup(g) && GroupChar(g[0]) && GroupChar(g[|g| - 1])
      && (forall i | 0 <= i < |g| :: g[i] == '/' || GroupChar(g[i]))
  {
    var g := Join(segments, '/');
    var s := segments[0];
    assert GoodSegment(s);
    if |segments| > 1 {
      JoinOfGoodSegments(segments[1..]);
      var rest := Join(segments[1..], '/');
      assert g == s + ['/'] + rest;
      assert g[|g| - 1] == rest[|rest| - 1] && g[0] == s[0] && |g| > 1;
    }
  }

  lemma GoodGroupIsFixed(segments: seq<string>)
    requires segments != [] && GoodSegments(segments)
    ensures NormalGroup(Join(segments, '/'))
    ensures NormalizeSourceGroup(Join(segments, '/')) == Ok(Join(segments, '/'))
  {
    var g := Join(segments, '/');
    JoinOfGoodSegments(segments);
    StripFixedPoints(g);
    assert ForwardSlashes(g) == g;
    forall i | 0 <= i < |segments| ensures '/' !in segments[i] {
      GoodSegmentIsFixed(segments[i]);
    }
    SplitOfJoin(segments, '/');
    GoodSegmentsAreFixed(segments);
  }

  /** Every accepted group name is in normal form, and normalizing it again changes nothing. */
  lemma NormalizedGroupsAreNormal(raw: string)
    ensures var r := NormalizeSourceGroup(raw);
      r.Ok? ==> NormalGroup(r.value) && NormalizeSourceGroup(r.value) == r
  {
    var r := NormalizeSourceGroup(raw);
    if r.Ok? {
      var value := ForwardSlashes(Strip(raw));
      var segments := ["common"];
      if value != [] && NormalizeSegments(Split(value, '/')).value != [] {
        segments := NormalizeSegments(Split(value, '/')).value;
        NormalizedSegmentsAreGood(Split(value, '/'));
      }
      assert r.value == Join(segments, '/');
      GoodGroupIsFixed(segments);
    }
  }

  /* ---- the precedence order ---- */

  predicate Under(normalized: string, group: string) {
    normalized == group || group + "/" <= normalized
  }

  function PrecedenceKey(group: string): (int, string) {
    var normalized := Lower(Strip(group));
    if normalized == [] || normalized == "." then (0, [])
    else if Under(normalized, "common") then (1, normalized)
    else if Under(normalized, "auto-fetched") then (3, normalized)
    else (2, normalized)
  }

  predicate KeyLe(a: (int, string), b: (int, string)) {
    a.0 < b.0 || (a.0 == b.0 && StrLe(a.1, b.1))
  }

  /** The group shown for a file: files in the upload root are listed under "default". */
  function SourceGroup(f: File): string {
    if f.group == [] then "default" else f.group
  }

  predicate StoredLe(f: File, g: File) {
    var a, b := PrecedenceKey(SourceGroup(f)), PrecedenceKey(SourceGroup(g));
    if a == b then StrLe(RelativePath(f), RelativePath(g)) else KeyLe(a, b)
  }

  lemma KeyOrder(a: (int, string), b: (int, string), c: (int, string))
    ensures KeyLe(a, b) || KeyLe(b, a)
    ensures KeyLe(a, b) && KeyLe(b, a) ==> a == b
    ensures KeyLe(a, b) && KeyLe(b, c) ==> KeyLe(a, c)
  {
    StrLeTotal(a.1, b.1);
    if a.0 == b.0 == c.0 && StrLe(a.1, b.1) && StrLe(b.1, c.1) {
      StrLeTransitive(a.1, b.1, c.1);
    }
  }

  lemma StoredOrder()
    ensures TotalPreorder(StoredLe)
  {
    forall x, y ensures StoredLe(x, y) || StoredLe(y, x) {
      KeyOrder(PrecedenceKey(SourceGroup(x)), PrecedenceKey(SourceGroup(y)), (0, []));
      StrLeTotal(RelativePath(x), RelativePath(y));
    }
    forall x, y, z | StoredLe(x, y) && StoredLe(y, z) ensures StoredLe(x, z) {
      var a, b, c := PrecedenceKey(SourceGroup(x)), PrecedenceKey(SourceGroup(y)), PrecedenceKey(SourceGroup(z));
      KeyOrder(a, b, c);
      KeyOrder(b, c, a);
      if a == b == c {
        StrLeTransitive(RelativePath(x), RelativePath(y), RelativePath(z));
      }
    }
  }

  predicate DirLe(a: string, b: string) {
    KeyLe(PrecedenceKey(a), PrecedenceKey(b))
  }

  lemma DirOrder()
    ensures TotalPreorder(DirLe)
  {
    forall x, y ensures DirLe(x, y) || DirLe(y, x) {
      KeyOrder(PrecedenceKey(x), PrecedenceKey(y), (0, []));
    }
    forall x, y, z | DirLe(x, y) && DirLe(y, z) ensures DirLe(x, z) {
      KeyOrder(PrecedenceKey(x), PrecedenceKey(y), PrecedenceKey(z));
    }
  }

  /** Normal groups, and the root, have different keys. */
  lemma KeysSeparateGroups(a: string, b: string)
    requires a == [] || NormalGroup(a)
    requires b == [] || NormalGroup(b)
    requires PrecedenceKey(a) == PrecedenceKey(b)
    ensures a == b
  {
    StripFixedPoints(a);
    StripFixedPoints(b);
    LowerIsIdentityOnLower(a);
    LowerIsIdentityOnLower(b);
  }

  /** The root comes first, then the common groups, then every other, and the fetched ones last. */
  function RankOf(group: string): nat {
    if group == "" then 0
    else if group == "common" || "common/" <= group then 1
    else if group == "auto-fetched" || "auto-fetched/" <= group then 3
    else 2
  }

  lemma KeyOfGroup(group: string)
    requires group == "" || NormalGroup(group)
    ensures PrecedenceKey(group) == (RankOf(group), group)
  {
    StripFixedPoints(group);
    LowerIsIdentityOnLower(group);
  }

  /** Capitals and surrounding blanks of a group do not matter. */
  lemma KeyIgnoresCase(group: string)
    ensures PrecedenceKey(group) == PrecedenceKey(Lower(Strip(group)))
  {
    StripFixedPoints(group);
    StripFixedPoints(Lower(Strip(group)));
    LowerIsIdentityOnLower(Lower(Strip(group)));
  }

  /** Directories are searched by rank, and in text order within a rank. */
  lemma SearchOrder(a: string, b: string)
    requires (a == "" || NormalGroup(a)) && (b == "" || NormalGroup(b))
    ensures DirLe(a, b) <==> RankOf(a) < RankOf(b) || (RankOf(a) == RankOf(b) && StrLe(a, b))
  {
    KeyOfGroup(a);
    KeyOfGroup(b);
  }

  /** The group under which a file is listed; the root is listed as "default". */
  function ListedGroup(f: File): string {
    if f.group == "" then "default" else f.group
  }

  lemma DefaultIsNormal()
    ensures NormalGroup("default")
  {}

  /** Copies are predicted by the rank of their listed group, then by its text, then by path. */
  lemma PredictionOrder(f: File, g: File)
    requires (f.group == "" || NormalGroup(f.group)) && (g.group == "" || NormalGroup(g.group))
    ensures var a, b := ListedGroup(f), ListedGroup(g);
      StoredLe(f, g) <==>
        if a == b then StrLe(RelativePath(f), RelativePath(g))
        else RankOf(a) < RankOf(b) || (RankOf(a) == RankOf(b) && StrLe(a, b))
  {
    DefaultIsNormal();
    KeyOfGroup(ListedGroup(f));
    KeyOfGroup(ListedGroup(g));
  }

  lemma PathOfFile(f: File)
    ensures f.suffix == Txt ==> RelativePath(f) == (if f.group == "" then "" else f.group + "/") + f.stem + ".txt"
    ensures f.suffix == Mib ==> RelativePath(f) == (if f.group == "" then "" else f.group + "/") + f.stem + ".mib"
    ensures f.suffix == My ==> RelativePath(f) == (if f.group == "" then "" else f.group + "/") + f.stem + ".my"
  {}

  predicate GroupLetter(c: char) {
    c in "abcdefghijklmnopqrstuvwxyz0123456789._-"
  }

  lemma GroupChars(c: char)
    ensures GroupChar(c) <==> GroupLetter(c)
  {}

  /** A segment is refused for being a dot, two dots or for another character. */
  predicate BadSegment(part: string) {
    var segment := Lower(Strip(part));
    segment == "." || segment == ".." || exists i | 0 <= i < |segment| :: !GroupChar(segment[i])
  }

  lemma FirstSegment(part: string, rest: seq<string>)
    ensures NormalizeSegments([part] + rest).Err? <==> BadSegment(part) || NormalizeSegments(rest).Err?
    ensures !BadSegment(part) && NormalizeSegments(rest).Ok? ==>
      NormalizeSegments([part] + rest).value ==
        (if Strip(part) == "" then [] else [Lower(Strip(part))]) + NormalizeSegments(rest).value
  {
    assert ([part] + rest)[1..] == rest;
  }

  /** A group name is refused exactly for a bad segment; blank segments are skipped. */
  lemma {:induction false} SegmentsAreRefusedExactlyWhen(parts: seq<string>)
    ensures NormalizeSegments(parts).Err? <==> exists part | part in parts :: BadSegment(part)
  {
    if parts != [] {
      SegmentsAreRefusedExactlyWhen(parts[1..]);
      FirstSegment(parts[0], parts[1..]);
      assert parts == [parts[0]] + parts[1..];
    }
  }

  /** No name means the common group. */
  lemma BlankGroupIsCommon(raw: string)
    requires Strip(raw) == ""
    ensures NormalizeSourceGroup(raw) == Ok("common")
  {}

  /* ---- the prediction ---- */

  function Copies(files: seq<File>, mib: string): (r: seq<File>)
    ensures forall f :: f in r <==> f in files && Strip(f.declared) == mib
  {
    if files == [] then []
    else if Strip(files[0].declared) == mib then [files[0]] + Copies(files[1..], mib)
    else Copies(files[1..], mib)
  }

  function Without(files: seq<File>, path: string): (r: seq<File>)
    ensures forall f :: f in r <==> f in files && RelativePath(f) != path
  {
    if files == [] then []
    else if RelativePath(files[0]) == path then Without(files[1..], path)
    else [files[0]] + Without(files[1..], path)
  }

  function StoredSources(inventory: seq<File>, candidate: File): seq<File> {
    var others := Copies(Without(inventory, RelativePath(candidate)), Strip(candidate.declared));
    SortBy(others + [candidate], StoredLe)
  }

  datatype Resolution = Unique | Active | Shadowed(winner: File)

  /** A blank name is nobody's duplicate. */
  function DuplicateResolution(inventory: seq<File>, candidate: File): Resolution {
    var stored := StoredSources(inventory, candidate);
    if Strip(candidate.declared) == [] then Unique
    else if Copies(Without(inventory, RelativePath(candidate)), Strip(candidate.declared)) == [] || stored == [] then Unique
    else if stored[0] == candidate then Active
    else Shadowed(stored[0])
  }

  function PredictedActive(inventory: seq<File>, candidate: File): File {
    match DuplicateResolution(inventory, candidate)
    case Shadowed(f) => f
    case _ => candidate
  }

  /** Another stored copy: the same stripped name under another path. */
  ghost predicate HasOtherCopy(inventory: seq<File>, candidate: File) {
    exists f | f in inventory :: RelativePath(f) != RelativePath(candidate) && Strip(f.declared) == Strip(candidate.declared)
  }

  /** An upload is unique without a name or another copy; otherwise it becomes active exactly when it
      is the prediction. */
  lemma ResolutionByCopies(inventory: seq<File>, candidate: File)
    ensures DuplicateResolution(inventory, candidate) == Unique <==>
      Strip(candidate.declared) == "" || !HasOtherCopy(inventory, candidate)
    ensures DuplicateResolution(inventory, candidate) == Active ==> PredictedActive(inventory, candidate) == candidate
    ensures DuplicateResolution(inventory, candidate).Shadowed? ==>
      DuplicateResolution(inventory, candidate).winner == PredictedActive(inventory, candidate) != candidate
  {
    var others := Copies(Without(inventory, RelativePath(candidate)), Strip(candidate.declared));
    if HasOtherCopy(inventory, candidate) {
      var f :| f in inventory && RelativePath(f) != RelativePath(candidate) && Strip(f.declared) == Strip(candidate.declared);
      assert f in others;
    }
    if others != [] {
      assert others[0] in others;
    }
    var stored := SortBy(others + [candidate], StoredLe);
    assert stored != [] && (others == [] ==> stored[0] == candidate) by {
      StoredOrder();
      SortFirstIsLeast(others + [candidate], StoredLe);
    }
  }

  /* ---- the search ---- */

  function AfterUpload(inventory: seq<File>, candidate: File): seq<File> {
    Without(inventory, RelativePath(candidate)) + [candidate]
  }

  function Groups(files: seq<File>): (r: seq<string>)
    ensures forall g :: g in r <==> exists f :: f in files && f.group == g
  {
    if files == [] then []
    else
      var rest := Groups(files[1..]);
      if files[0].group in rest then rest else [files[0].group] + rest
  }

  function OrderedDirs(files: seq<File>): seq<string> {
    SortBy(Groups(files), DirLe)
  }

  predicate Holds(files: seq<File>, dir: string, stem: string, suffix: Suffix) {
    exists f | f in files :: f.group == dir && f.stem == stem && f.suffix == suffix
  }

  /** One directory is probed for .txt, .mib and .my, in that order. */
  function ProbeDir(files: seq<File>, dir: string, mib: string): Option<Suffix> {
    if Holds(files, dir, mib, Txt) then Some(Txt)
    else if Holds(files, dir, mib, Mib) then Some(Mib)
    else if Holds(files, dir, mib, My) then Some(My)
    else None
  }

  function SearchByName(files: seq<File>, dirs: seq<string>, mib: string): Option<(string, Suffix)> {
    if dirs == [] then None
    else
      match ProbeDir(files, dirs[0], mib)
      case Some(s) => Some((dirs[0], s))
      case None => SearchByName(files, dirs[1..], mib)
  }

  /** The file the compile-time search settles on; the later passes (bundled sources, then file
      contents) run only when no upload directory holds a file of that name. */
  function SearchUploads(files: seq<File>, mib: string): Option<(string, Suffix)> {
    SearchByName(files, OrderedDirs(files), mib)
  }

  predicate Selects(files: seq<File>, mib: string, f: File) {
    f.stem == mib && SearchUploads(files, mib) == Some((f.group, f.suffix))
  }

  /** Within a directory a .txt file is found before a .mib file, and that before a .my file. */
  lemma ProbeOrder(files: seq<File>, dir: string, mib: string)
    ensures ProbeDir(files, dir, mib) ==
      if exists f | f in files :: f.group == dir && f.stem == mib && f.suffix == Txt then Some(Txt)
      else if exists f | f in files :: f.group == dir && f.stem == mib && f.suffix == Mib then Some(Mib)
      else if exists f | f in files :: f.group == dir && f.stem == mib && f.suffix == My then Some(My)
      else None
  {}

  /* ---- prediction and search agree ---- */

  /** A MIB's files are named after the MIB they declare, in the root or in normal groups, one per path. */
  predicate Canonical(files: seq<File>, mib: string) {
    && mib != []
    && (forall f | f in files :: (Strip(f.declared) == mib <==> f.stem == mib) && (f.group == [] || NormalGroup(f.group)))
    && (forall f, g | f in files && g in files && f.group == g.group && f.stem == g.stem && f.suffix == g.suffix :: f == g)
  }

  /** The group holds the MIB under .txt and under another extension as well. */
  predicate MixedSuffixes(files: seq<File>, group: string, mib: string) {
    Holds(files, group, mib, Txt) && (Holds(files, group, mib, Mib) || Holds(files, group, mib, My))
  }

  predicate RootHolds(files: seq<File>, mib: string) {
    exists f | f in files :: f.group == [] && f.stem == mib
  }

  function AllCopies(inventory: seq<File>, candidate: File): seq<File> {
    Copies(Without(inventory, RelativePath(candidate)), Strip(candidate.declared)) + [candidate]
  }

  /** The copies considered are those that will be stored after the upload. */
  lemma CopiesAfterUpload(inventory: seq<File>, candidate: File)
    ensures var files, mib := AfterUpload(inventory, candidate), Strip(candidate.declared);
      forall f :: f in AllCopies(inventory, candidate) <==> f in files && Strip(f.declared) == mib
  {}

  /** The prediction is the first of the copies in the precedence order. */
  lemma {:induction false} PredictedIsFirst(inventory: seq<File>, candidate: File)
    requires Strip(candidate.declared) != []
    ensures var stored := SortBy(AllCopies(inventory, candidate), StoredLe);
      stored != [] && PredictedActive(inventory, candidate) == stored[0]
  {
    var others := Copies(Without(inventory, RelativePath(candidate)), Strip(candidate.declared));
    var stored := SortBy(others + [candidate], StoredLe);
    assert stored != [] && (others == [] ==> stored[0] == candidate) by {
      StoredOrder();
      SortFirstIsLeast(others + [candidate], StoredLe);
    }
  }

  /** The prediction is one of the stored copies and precedes them all; under a blank name it is
      the uploaded file itself. */
  lemma PredictedIsLeast(inventory: seq<File>, candidate: File)
    ensures var p := PredictedActive(inventory, candidate);
      var files, mib := AfterUpload(inventory, candidate), Strip(candidate.declared);
      && p in files && Strip(p.declared) == mib
      && (if mib == [] then p == candidate else forall f | f in files && Strip(f.declared) == mib :: StoredLe(p, f))
  {
    if Strip(candidate.declared) != [] {
      StoredOrder();
      PredictedIsFirst(inventory, candidate);
      CopiesAfterUpload(inventory, candidate);
      SortFirstIsLeast(AllCopies(inventory, candidate), StoredLe);
    }
  }

  lemma {:induction false} SearchFindsFirstHolder(files: seq<File>, dirs: seq<string>, mib: string, k: nat)
    requires k < |dirs| && ProbeDir(files, dirs[k], mib).Some?
    requires forall i | 0 <= i < k :: dirs[i] == dirs[k] || ProbeDir(files, dirs[i], mib).None?
    ensures SearchByName(files, dirs, mib) == Some((dirs[k], ProbeDir(files, dirs[k], mib).value))
  {
    if k > 0 && dirs[0] != dirs[k] {
      SearchFindsFirstHolder(files, dirs[1..], mib, k - 1);
    }
  }

  lemma DirPosition(files: seq<File>, g: string) returns (k: nat)
    requires g in Groups(files)
    ensures k < |OrderedDirs(files)| && OrderedDirs(files)[k] == g
    ensures forall i | 0 <= i < k :: DirLe(OrderedDirs(files)[i], g)
  {
    DirOrder();
    k := SortPosition(Groups(files), DirLe, g);
  }

  /** If no other holder's directory precedes the one of w, the search stops there. */
  lemma SearchStopsAt(files: seq<File>, mib: string, w: File)
    requires w in files && w.stem == mib
    requires forall f | f in files && f.stem == mib && f.group != w.group :: !DirLe(f.group, w.group)
    ensures ProbeDir(files, w.group, mib).Some?
    ensures SearchUploads(files, mib) == Some((w.group, ProbeDir(files, w.group, mib).value))
  {
    var dirs := OrderedDirs(files);
    var k := DirPosition(files, w.group);
    assert Holds(files, w.group, mib, w.suffix);
    forall i | 0 <= i < k ensures dirs[i] == w.group || ProbeDir(files, dirs[i], mib).None? {
      assert DirLe(dirs[i], w.group);
    }
    SearchFindsFirstHolder(files, dirs, mib, k);
  }

  /** A copy that precedes f in the prediction order is in f's directory or in one searched earlier. */
  lemma LeastCopyIsSearchedFirst(p: File, f: File)
    requires StoredLe(p, f)
    requires p.group == [] || NormalGroup(p.group)
    requires f.group == [] || NormalGroup(f.group)
    requires f.group == [] ==> p.group == []
    ensures f.group == p.group || !DirLe(f.group, p.group)
  {
    assert PrecedenceKey([]) == (0, []);
    StripFixedPoints(f.group);
    LowerIsIdentityOnLower(f.group);
    if f.group != p.group && DirLe(f.group, p.group) {
      var a, b := PrecedenceKey(p.group), PrecedenceKey(f.group);
      KeyOrder(a, b, a);
      if a == b {
        KeysSeparateGroups(p.group, f.group);
      }
    }
  }

  lemma SuffixOrder(f: File, g: File)
    requires f.group == g.group && f.stem == g.stem
    ensures StrLe(RelativePath(f), RelativePath(g)) <==>
      f.suffix == g.suffix || f.suffix == Mib || g.suffix == Txt
  {
    var prefix := (if f.group == [] then [] else f.group + "/") + f.stem;
    StrLeCancelsPrefix(prefix, SuffixText(f.suffix), SuffixText(g.suffix));
    assert ".txt"[1..] == "txt" && ".mib"[1..] == "mib" && ".my"[1..] == "my";
    assert "mib"[1..] == "ib" && "my"[1..] == "y";
    StrLeTotal(SuffixText(f.suffix), SuffixText(f.suffix));
  }

  /** A root copy precedes every copy in a group, though the root is listed as "default". */
  predicate RootFirst(files: seq<File>, mib: string) {
    exists r | r in files :: r.group == [] && r.stem == mib
      && forall f | f in files && f.stem == mib && f.group != [] :: StoredLe(r, f)
  }

  /** f precedes every copy of the MIB. */
  predicate Leads(files: seq<File>, mib: string, f: File) {
    f in files && f.stem == mib && forall g | g in files && g.stem == mib :: StoredLe(f, g)
  }

  /** The group of a leading copy holds the MIB under .txt and under another extension. */
  predicate LeadingGroupIsMixed(files: seq<File>, mib: string) {
    exists f | f in files :: Leads(files, mib, f) && MixedSuffixes(files, f.group, mib)
  }

  /** A root copy and a copy listed in a group never tie: equal keys put the second in the group
      "default", and its path is longer. */
  lemma RootNeverTies(r: File, f: File)
    requires r.group == [] && NormalGroup(f.group) && r.stem == f.stem
    ensures !(StoredLe(r, f) && StoredLe(f, r))
  {
    assert |RelativePath(r)| < |RelativePath(f)| || f.group != "default";
    if StoredLe(r, f) && StoredLe(f, r) {
      DefaultIsNormal();
      KeyOrder(PrecedenceKey("default"), PrecedenceKey(f.group), (0, []));
      KeysSeparateGroups("default", f.group);
      StrLeTotal(RelativePath(r), RelativePath(f));
    }
  }

  /** Copies that lead together are in one group. */
  lemma LeadersShareGroup(files: seq<File>, mib: string, f: File, g: File)
    requires Canonical(files, mib) && Leads(files, mib, f) && Leads(files, mib, g)
    ensures f.group == g.group
  {
    KeyOrder(PrecedenceKey(SourceGroup(f)), PrecedenceKey(SourceGroup(g)), (0, []));
    if f.group == [] && g.group != [] {
      RootNeverTies(f, g);
    } else if g.group == [] && f.group != [] {
      RootNeverTies(g, f);
    } else if f.group != [] {
      KeysSeparateGroups(f.group, g.group);
    }
  }

  /** A leading copy is in the root exactly when a root copy precedes every copy in a group. */
  lemma LeaderInRootExactlyWhen(files: seq<File>, mib: string, p: File)
    requires Canonical(files, mib) && Leads(files, mib, p)
    ensures p.group == [] <==> RootFirst(files, mib)
  {
    if p.group != [] && RootFirst(files, mib) {
      var r :| r in files && r.group == [] && r.stem == mib
        && forall f | f in files && f.stem == mib && f.group != [] :: StoredLe(r, f);
      RootNeverTies(r, p);
    }
  }

  lemma RootIsSearchedFirst(files: seq<File>, mib: string)
    requires Canonical(files, mib) && RootHolds(files, mib)
    ensures SearchUploads(files, mib).Some? && SearchUploads(files, mib).value.0 == []
  {
    var w :| w in files && w.group == [] && w.stem == mib;
    forall f | f in files && f.group != [] ensures !DirLe(f.group, []) {
      assert PrecedenceKey([]) == (0, []);
      StripFixedPoints(f.group);
      LowerIsIdentityOnLower(f.group);
    }
    SearchStopsAt(files, mib, w);
  }

  lemma PredictedSuffix(files: seq<File>, mib: string, p: File)
    requires Canonical(files, mib)
    requires p in files && p.stem == mib
    requires forall f | f in files && f.stem == mib :: StoredLe(p, f)
    ensures ProbeDir(files, p.group, mib) == Some(p.suffix) <==> !MixedSuffixes(files, p.group, mib)
  {
    assert Holds(files, p.group, mib, p.suffix);
    forall f | f in files && f.stem == mib && f.group == p.group
      ensures p.suffix == f.suffix || p.suffix == Mib || f.suffix == Txt
    {
      assert StoredLe(p, f);
      SuffixOrder(p, f);
    }
  }

  lemma PredictedIsSelected(files: seq<File>, mib: string, p: File)
    requires Canonical(files, mib) && Leads(files, mib, p)
    ensures Selects(files, mib, p) <==>
      !MixedSuffixes(files, p.group, mib) && (RootHolds(files, mib) ==> p.group == [])
  {
    if RootHolds(files, mib) && p.group != [] {
      RootIsSearchedFirst(files, mib);
    } else {
      forall f | f in files && f.stem == mib && f.group != p.group ensures !DirLe(f.group, p.group) {
        LeastCopyIsSearchedFirst(p, f);
      }
      SearchStopsAt(files, mib, p);
      PredictedSuffix(files, mib, p);
    }
  }

  /** The prediction is the file the search selects after the upload, exactly when a copy in the
      upload root precedes the others if there is one, and no leading group mixes .txt with another
      extension. */
  lemma PredictionIsSelectedExactlyWhen(inventory: seq<File>, candidate: File)
    requires Canonical(AfterUpload(inventory, candidate), Strip(candidate.declared))
    ensures var files, mib := AfterUpload(inventory, candidate), Strip(candidate.declared);
      Selects(files, mib, PredictedActive(inventory, candidate)) <==>
        (RootHolds(files, mib) ==> RootFirst(files, mib)) && !LeadingGroupIsMixed(files, mib)
  {
    var files, mib := AfterUpload(inventory, candidate), Strip(candidate.declared);
    var p := PredictedActive(inventory, candidate);
    PredictedIsLeast(inventory, candidate);
    assert Leads(files, mib, p);
    PredictedIsSelected(files, mib, p);
    LeaderInRootExactlyWhen(files, mib, p);
    forall f | f in files && Leads(files, mib, f) ensures f.group == p.group {
      LeadersShareGroup(files, mib, f, p);
    }
  }

  /** One file per MIB in every named group is enough. */
  lemma OneFilePerGroupIsPredicted(inventory: seq<File>, candidate: File)
    requires Canonical(AfterUpload(inventory, candidate), Strip(candidate.declared))
    requires forall f | f in AfterUpload(inventory, candidate) :: f.group != []
    requires forall f, g | f in AfterUpload(inventory, candidate) && g in AfterUpload(inventory, candidate)
      && f.group == g.group && f.stem == g.stem :: f.suffix == g.suffix
    ensures Selects(AfterUpload(inventory, candidate), Strip(candidate.declared), PredictedActive(inventory, candidate))
  {
    PredictionIsSelectedExactlyWhen(inventory, candidate);
  }

  lemma DefaultGroupKey()
    ensures PrecedenceKey("default") == (2, "default")
    ensures PrecedenceKey("common") == (1, "common")
  {
    StripFixedPoints("default");
    StripFixedPoints("common");
    LowerIsIdentityOnLower("default");
    LowerIsIdentityOnLower("common");
    assert "default"[0] != "common"[0] && "default"[0] != "auto-fetched"[0];
  }

  lemma RootAfterCommon(r: File, shared: File)
    requires r.group == [] && PrecedenceKey(shared.group).0 == 1
    ensures !StoredLe(r, shared)
  {
    DefaultGroupKey();
    assert PrecedenceKey([]) == (0, []);
  }

  /** Whenever a copy sits in the upload root and another under "common", the prediction is wrong:
      the search takes the root copy, the prediction files the root under "default". */
  lemma RootCopyBeatsCommonCopy(inventory: seq<File>, candidate: File, shared: File)
    requires var files, mib := AfterUpload(inventory, candidate), Strip(candidate.declared);
      Canonical(files, mib) && RootHolds(files, mib) && shared in files && shared.stem == mib
    requires PrecedenceKey(shared.group).0 == 1
    ensures !Selects(AfterUpload(inventory, candidate), Strip(candidate.declared), PredictedActive(inventory, candidate))
  {
    PredictionIsSelectedExactlyWhen(inventory, candidate);
    forall r: File | r.group == [] ensures !StoredLe(r, shared) {
      RootAfterCommon(r, shared);
    }
    assert shared.group != [] by {
      assert PrecedenceKey([]) == (0, []);
    }
  }

  /** Such a family exists: A.mib in the root, and an upload of A.mib to "common". */
  lemma RootCopyExample()
    ensures var root, upload := File([], "A", Mib, "A"), File("common", "A", Mib, "A");
      !Selects(AfterUpload([root], upload), "A", PredictedActive([root], upload))
  {
    var root, upload := File([], "A", Mib, "A"), File("common", "A", Mib, "A");
    StripFixedPoints("A");
    DefaultGroupKey();
    assert [] + "A" + ".mib" == "A.mib";
    assert RelativePath(root) == "A.mib";
    assert RelativePath(upload)[0] == 'c';
    assert root in AfterUpload([root], upload);
    RootCopyBeatsCommonCopy([root], upload, upload);
  }
}
