/**
 * The directory-tree reporter `generate_tree_and_read_files` of dirlist.py.
 *
 * The file system is a finite tree of `Entry` values; the directory being
 * rendered is a `Listing`. The output file is a `Sink` whose `lines` only grow.
 * `RenderListing` is the report the renderer must produce; the method
 * `GenerateTreeAndReadFiles`, written the way the Python function runs (a
 * filter loop, a sort, a write loop with recursion), is proved to append
 * exactly those lines. The lemmas below state what the report looks like.
 */
module DirList {
  import opened Wrappers
  import opened PyText

  /** What opening and reading a file yields: its decoded text, or the message of the exception raised. */
  datatype ReadResult = Text(content: string) | ReadError(message: string)

  /** A directory entry, classified as `os.path.isdir` / `os.path.isfile` classify it. */
  datatype Entry =
    | Dir(name: string, listing: Listing)
    | File(name: string, read: ReadResult)
    | Other(name: string)  // neither a directory nor a regular file

  /** What `os.listdir` does on a directory: it lists entries (in some order), or raises PermissionError. */
  datatype Listing = Listed(entries: seq<Entry>) | PermissionDenied

  /** The three configuration lists handed down unchanged to every recursive call. */
  datatype Policy = Policy(ignoreList: seq<string>, allowedExtensions: seq<string>, excludedExtensions: seq<string>)

  /** Names in one directory are distinct. */
  ghost predicate DistinctNames(es: seq<Entry>) {
    forall i, j :: 0 <= i < j < |es| ==> es[i].name != es[j].name
  }

  // ---------------------------------------------------------------------------
  // The configuration at the top of dirlist.py
  // ---------------------------------------------------------------------------

  const OutputFilename: string := "directory_listing_with_content.txt"

  const AllowedExtensions: seq<string> := []

  const ExcludedExtensions: seq<string> := [
    ".png", ".jpg", ".jpeg", ".gif", ".bmp", ".svg", ".ico",
    ".mp3", ".mp4", ".avi", ".mov",
    ".exe", ".dll", ".so", ".o", ".obj", ".class", ".pyc",
    ".zip", ".tar", ".gz", ".7z", ".rar",
    ".pdf", ".doc", ".docx", ".xls", ".xlsx"
  ]

  /** Exact names never listed; the report's own file name is among them. */
  const IgnoreItems: seq<string> := [
    "__pycache__", ".gitignore", ".git", ".idea", ".vscode", "node_modules",
    "dist", "build", "venv", ".DS_Store", OutputFilename
  ]

  const DefaultPolicy: Policy := Policy(IgnoreItems, AllowedExtensions, ExcludedExtensions)

  // ---------------------------------------------------------------------------
  // The fixed pieces of text the renderer writes
  // ---------------------------------------------------------------------------

  const Tee: string := "├── "
  const Elbow: string := "└── "
  const Pipe: string := "│   "
  const Gap: string := "    "
  const DeniedNote: string := "[权限不足，无法访问]"
  const EmptyNote: string := "    (文件为空)"
  const ContentStart: string := "┌─ [文件内容开始] ──────────"
  const ContentBar: string := "│ "
  const ContentEnd: string := "└─ [文件内容结束] ──────────"

  function UnreadableNote(message: string): string {
    "[无法读取文件: " + message + "]"
  }

  /** The branch marker of the entry at `index` among `count` survivors. */
  function Pointer(index: nat, count: nat): string {
    if index == count - 1 then Elbow else Tee
  }

  /** What a child's prefix grows by below an entry with this marker. */
  function Extension(pointer: string): string {
    if pointer == Tee then Pipe else Gap
  }

  // ---------------------------------------------------------------------------
  // The output file
  // ---------------------------------------------------------------------------

  /** The report file: each `write` appends one line (the trailing newline is implicit). */
  class Sink {
    var lines: seq<string>

    constructor ()
      ensures lines == []
    {
      lines := [];
    }

    method Write(line: string)
      modifies this
      ensures lines == old(lines) + [line]
    {
      lines := lines + [line];
    }
  }

  // ---------------------------------------------------------------------------
  // Filtering
  // ---------------------------------------------------------------------------

  /** `[item for item in os.listdir(dir_path) if item not in ignore_list]`, keeping the entries. */
  function VisibleEntries(es: seq<Entry>, ignoreList: seq<string>): (r: seq<Entry>)
    ensures forall e :: e in r <==> e in es && e.name !in ignoreList
    ensures |r| <= |es|
  {
    if es == [] then []
    else if es[0].name in ignoreList then VisibleEntries(es[1..], ignoreList)
    else [es[0]] + VisibleEntries(es[1..], ignoreList)
  }

  /** The extension rule: directories always stay, other non-files never do, and a file
      stays unless it ends in an excluded suffix or a non-empty whitelist misses it. */
  predicate Kept(e: Entry, p: Policy) {
    match e
    case Dir(_, _) => true
    case File(name, _) =>
      !EndsWithAny(name, p.excludedExtensions)
      && (p.allowedExtensions == [] || EndsWithAny(name, p.allowedExtensions))
    case Other(_) => false
  }

  /** The names of the entries of `items` that survive the extension rule, in listing order. */
  function KeptNames(items: seq<Entry>, p: Policy): seq<string> {
    if items == [] then []
    else
      var last := items[|items| - 1];
      KeptNames(items[..|items| - 1], p) + (if Kept(last, p) then [last.name] else [])
  }

  /** The loop that builds `filtered_items`. */
  method FilterItems(items: seq<Entry>, p: Policy) returns (filtered: seq<string>)
    ensures filtered == KeptNames(items, p)
  {
    filtered := [];
    for i := 0 to |items|
      invariant filtered == KeptNames(items[..i], p)
    {
      assert items[..i + 1][..i] == items[..i];
      var item := items[i];
      if item.Dir? {
        filtered := filtered + [item.name];
        continue;
      }
      if item.File? {
        if |p.excludedExtensions| > 0 && EndsWithAny(item.name, p.excludedExtensions) {
          continue;
        }
        if |p.allowedExtensions| > 0 {
          if EndsWithAny(item.name, p.allowedExtensions) {
            filtered := filtered + [item.name];
          }
        } else {
          filtered := filtered + [item.name];
        }
      }
    }
    assert items[..|items|] == items;
  }

  /** The survivors of a directory, sorted: the names the renderer writes, in order. */
  function ListedNames(es: seq<Entry>, p: Policy): seq<string> {
    SortNames(KeptNames(VisibleEntries(es, p.ignoreList), p))
  }

  /** The entry `os.path.join(dir_path, name)` denotes: the first entry of that name. */
  function Find(es: seq<Entry>, name: string): (r: Option<Entry>)
    ensures r.Some? ==> r.value in es && r.value.name == name
    ensures r.None? ==> forall e :: e in es ==> e.name != name
  {
    if es == [] then None
    else if es[0].name == name then Some(es[0])
    else Find(es[1..], name)
  }

  // ---------------------------------------------------------------------------
  // The report
  // ---------------------------------------------------------------------------

  /** The lines written for an unreadable file's content, a blank file, or a file's text. */
  function RenderContent(read: ReadResult, prefix: string): seq<string> {
    match read
    case ReadError(message) => [prefix + UnreadableNote(message)]
    case Text(content) =>
      if Strip(content) == [] then [prefix + EmptyNote]
      else [prefix + ContentStart] + ContentLines(SplitLines(content), prefix) + [prefix + ContentEnd]
  }

  /** One `"│ "` line per line of text, in the original order. */
  function ContentLines(ls: seq<string>, prefix: string): seq<string> {
    if ls == [] then []
    else ContentLines(ls[..|ls| - 1], prefix) + [prefix + ContentBar + ls[|ls| - 1]]
  }

  lemma ContentLinesSnoc(ls: seq<string>, i: nat, prefix: string)
    requires i < |ls|
    ensures ContentLines(ls[..i + 1], prefix) == ContentLines(ls[..i], prefix) + [prefix + ContentBar + ls[i]]
  {
    assert ls[..i + 1][..i] == ls[..i];
  }

  /** The lines written for a directory whose listing is `l`, below a line ending in `prefix`. */
  function RenderListing(l: Listing, prefix: string, p: Policy): seq<string>
    decreases l, 2, 0
  {
    match l
    case PermissionDenied => [prefix + Elbow + DeniedNote]
    case Listed(es) =>
      var names := ListedNames(es, p);
      RenderBetween(names, es, prefix, p, 0, |names|)
  }

  /** The lines of the survivors `names[lo..hi]`, each followed by its content or subtree. */
  function RenderBetween(names: seq<string>, es: seq<Entry>, prefix: string, p: Policy, lo: nat, hi: nat): seq<string>
    requires hi <= |names|
    decreases es, 1, hi
  {
    if hi <= lo then []
    else RenderBetween(names, es, prefix, p, lo, hi - 1) + RenderItem(names, hi - 1, es, prefix, p)
  }

  lemma RenderBetweenSnoc(names: seq<string>, es: seq<Entry>, prefix: string, p: Policy, k: nat)
    requires k < |names|
    ensures RenderBetween(names, es, prefix, p, 0, k + 1) == RenderBetween(names, es, prefix, p, 0, k) + RenderItem(names, k, es, prefix, p)
  {
  }

  /** What follows the tree line of `names[k]`, by what the name denotes. */
  lemma RenderItemCases(names: seq<string>, k: nat, es: seq<Entry>, prefix: string, p: Policy)
    requires k < |names|
    ensures var found, line := Find(es, names[k]), prefix + Pointer(k, |names|) + names[k];
      var childPrefix := prefix + Extension(Pointer(k, |names|));
      && (found.Some? && found.value.Dir? ==>
            RenderItem(names, k, es, prefix, p) == [line] + RenderListing(found.value.listing, childPrefix, p))
      && (found.Some? && found.value.File? ==>
            RenderItem(names, k, es, prefix, p) == [line] + RenderContent(found.value.read, childPrefix))
      && (found.None? || found.value.Other? ==> RenderItem(names, k, es, prefix, p) == [line])
  {
  }

  /** The tree line of survivor `names[k]`, then its subtree (directory) or content (file). */
  function RenderItem(names: seq<string>, k: nat, es: seq<Entry>, prefix: string, p: Policy): seq<string>
    requires k < |names|
    decreases es, 0, 0
  {
    var pointer := Pointer(k, |names|);
    var childPrefix := prefix + Extension(pointer);
    [prefix + pointer + names[k]] +
      match Find(es, names[k])
      case Some(Dir(_, sub)) => RenderListing(sub, childPrefix, p)
      case Some(File(_, read)) => RenderContent(read, childPrefix)
      case _ => []
  }

  // ---------------------------------------------------------------------------
  // The renderer
  // ---------------------------------------------------------------------------

  /** Writes a file's content (or the placeholder for it) below its tree line. */
  method InlineContent(read: ReadResult, out: Sink, prefix: string)
    modifies out
    ensures out.lines == old(out.lines) + RenderContent(read, prefix)
  {
    match read
    case ReadError(message) =>
      out.Write(prefix + UnreadableNote(message));
    case Text(content) =>
      if Strip(content) == [] {
        out.Write(prefix + EmptyNote);
      } else {
        WriteContentBlock(SplitLines(content), out, prefix);
      }
  }

  /** The start marker, one line per line of text, the end marker. */
  method WriteContentBlock(ls: seq<string>, out: Sink, prefix: string)
    modifies out
    ensures out.lines == old(out.lines) + [prefix + ContentStart] + ContentLines(ls, prefix) + [prefix + ContentEnd]
  {
    out.Write(prefix + ContentStart);
    for i := 0 to |ls|
      invariant out.lines == old(out.lines) + [prefix + ContentStart] + ContentLines(ls[..i], prefix)
    {
      ContentLinesSnoc(ls, i, prefix);
      out.Write(prefix + ContentBar + ls[i]);
    }
    assert ls[..|ls|] == ls;
    out.Write(prefix + ContentEnd);
  }

  /** `generate_tree_and_read_files(dir_path, output_file, prefix, ...)` on a directory listing `l`. */
  method GenerateTreeAndReadFiles(l: Listing, out: Sink, prefix: string, p: Policy)
    modifies out
    ensures out.lines == old(out.lines) + RenderListing(l, prefix, p)
    decreases l, 3
  {
    match l
    case PermissionDenied =>
      out.Write(prefix + Elbow + DeniedNote);
    case Listed(entries) =>
      var items := VisibleEntries(entries, p.ignoreList);
      var filtered := FilterItems(items, p);
      filtered := SortNames(filtered);
      WriteItems(filtered, entries, out, prefix, p);
  }

  /** The write loop over the sorted survivors `names` of the directory `entries`. */
  method WriteItems(names: seq<string>, entries: seq<Entry>, out: Sink, prefix: string, p: Policy)
    modifies out
    ensures out.lines == old(out.lines) + RenderBetween(names, entries, prefix, p, 0, |names|)
    decreases entries, 2
  {
    ghost var start := out.lines;
    for k := 0 to |names|
      invariant out.lines == start + RenderBetween(names, entries, prefix, p, 0, k)
    {
      WriteItem(names, k, entries, out, prefix, p);
      RenderBetweenSnoc(names, entries, prefix, p, k);
      AppendAssociative(start, RenderBetween(names, entries, prefix, p, 0, k), RenderItem(names, k, entries, prefix, p));
    }
  }

  /** One turn of the write loop: the tree line of `names[k]`, then its subtree or content. */
  method WriteItem(names: seq<string>, k: nat, entries: seq<Entry>, out: Sink, prefix: string, p: Policy)
    requires k < |names|
    modifies out
    ensures out.lines == old(out.lines) + RenderItem(names, k, entries, prefix, p)
    decreases entries, 1
  {
    var pointer := Pointer(k, |names|);
    var line := prefix + pointer + names[k];
    ghost var start := out.lines;
    out.Write(line);
    var found := Find(entries, names[k]);
    ghost var body := WriteBody(found, entries, out, prefix + Extension(pointer), p);
    RenderItemCases(names, k, entries, prefix, p);
    AppendAssociative(start, [line], body);
  }

  lemma AppendAssociative(a: seq<string>, b: seq<string>, c: seq<string>)
    ensures a + b + c == a + (b + c)
  {
  }

  /** What follows a tree line: the subtree of a directory, the content of a file, nothing otherwise. */
  method WriteBody(found: Option<Entry>, entries: seq<Entry>, out: Sink, childPrefix: string, p: Policy)
    returns (ghost body: seq<string>)
    requires found.Some? ==> found.value in entries
    modifies out
    ensures out.lines == old(out.lines) + body
    ensures found.Some? && found.value.Dir? ==> body == RenderListing(found.value.listing, childPrefix, p)
    ensures found.Some? && found.value.File? ==> body == RenderContent(found.value.read, childPrefix)
    ensures found.None? || found.value.Other? ==> body == []
    decreases entries, 0
  {
    if found.Some? && found.value.Dir? {
      body := RenderListing(found.value.listing, childPrefix, p);
      GenerateTreeAndReadFiles(found.value.listing, out, childPrefix, p);
    } else if found.Some? && found.value.File? {
      body := RenderContent(found.value.read, childPrefix);
      InlineContent(found.value.read, out, childPrefix);
    } else {
      body := [];
      assert out.lines == old(out.lines) + [];
    }
  }
}
