/**
 * The scanner of `src/core.ts`: `scanDirectory` mirrors a source directory
 * into a destination directory, entry by entry, and `transpileFile` writes a
 * transpiled file only when its trimmed content would change.
 *
 * The file system is an immutable value. The source side is a `Tree` whose
 * directories keep their listing in `readdir` order; the destination side is
 * a `Node` whose directories map entry names to nodes. `transpile` is a
 * parameter: any deterministic function from source text to output text.
 * The concurrent fan-out over a directory's entries is modelled as a
 * left-to-right pass over the listing.
 */
module Mirror {

  import opened Wrappers
  import Text
  import Paths

  /** A source entry as `fs.stat` classifies it. */
  datatype Tree = Dir(listing: seq<Entry>) | File(content: string) | Other
  datatype Entry = Entry(name: string, tree: Tree)

  /** A destination entry. */
  datatype Node = NDir(children: map<string, Node>) | NFile(content: string) | NOther

  type Transpiler = string -> string

  /** The I/O failures that reject the scan. */
  datatype IoError =
    | NotADirectory                       // `readdir` of the source root failed
    | MkdirOverNonDirectory(name: string) // `mkdir -p` where a non-directory exists
    | WriteOverDirectory(name: string)    // `copyFile`/`writeFile` onto a directory
    | WriteOverSpecial(name: string)      // `copyFile`/`writeFile` onto any special entry, as modelled

  /** What `processFile` does with one entry, and the destination name it uses. */
  datatype Plan = MirrorDir(target: string) | Skip | Transpile(target: string) | Copy(target: string)

  /** The result of processing one entry: its new destination node and the transpile writes made. */
  datatype Written = Written(node: Node, writes: nat)

  /** The destination directory after a scan, and the number of transpiled files written. */
  datatype Scanned = Scanned(dest: map<string, Node>, writes: nat)

  function Get(m: map<string, Node>, k: string): Option<Node> {
    if k in m then Some(m[k]) else None
  }

  /**
   * The classification of `processFile`: directories are mirrored under the
   * same name, entries that are neither directory nor file are skipped,
   * `.ts` and `.tsx` files are transpiled to `<stem>.js`, and every other
   * file is copied under its own name.
   */
  function PlanFor(e: Entry): (p: Plan)
    ensures e.tree.Dir? <==> p.MirrorDir?
    ensures e.tree.Other? <==> p.Skip?
    ensures e.tree.File? <==> p.Transpile? || p.Copy?
    ensures p.MirrorDir? ==> p.target == e.name
    ensures p.Transpile? <==> e.tree.File? && (Paths.ExtName(e.name) == ".ts" || Paths.ExtName(e.name) == ".tsx")
    ensures p.Copy? ==> p.target == e.name
  {
    match e.tree
    case Dir(_) => MirrorDir(e.name)
    case Other => Skip
    case File(_) =>
      var ext := Paths.ExtName(e.name);
      if ext == ".ts" then Transpile(Paths.ReplaceSuffix(e.name, "ts", "js"))
      else if ext == ".tsx" then Transpile(Paths.ReplaceSuffix(e.name, "tsx", "js"))
      else Copy(e.name)
  }

  /**
   * `transpileFile`: the output is compared, trimmed, with the existing
   * destination; a missing destination, or one that cannot be read as a
   * file, forces the write, and writing onto a directory fails. Writing onto
   * a special entry is modelled as a failure too, for every kind of entry.
   */
  function TranspileFile(transpile: Transpiler, source: string, existing: Option<Node>, target: string): (r: Result<Written, IoError>)
    ensures r.Err? <==> existing.Some? && !existing.value.NFile?
    ensures r.Ok? ==> r.value.node.NFile? && Text.Trim(r.value.node.content) == Text.Trim(transpile(source))
    ensures r.Ok? ==> r.value.writes <= 1
    ensures r.Ok? ==>
      (r.value.writes == 1 <==> existing.None? || Text.Trim(existing.value.content) != Text.Trim(transpile(source)))
    ensures r.Ok? && r.value.writes == 0 ==> existing == Some(r.value.node)
    ensures r.Ok? && r.value.writes == 1 ==> r.value.node == NFile(transpile(source))
  {
    var output := transpile(source);
    match existing
    case Some(NFile(current)) =>
      if Text.Trim(current) == Text.Trim(output) then Ok(Written(NFile(current), 0))
      else Ok(Written(NFile(output), 1))
    case Some(NDir(_)) => Err(WriteOverDirectory(target))
    case Some(NOther) => Err(WriteOverSpecial(target))
    case None => Ok(Written(NFile(output), 1))
  }

  /** `fs.copyFile`: the destination becomes a file with the source's bytes. */
  function CopyFile(content: string, existing: Option<Node>, target: string): (r: Result<Written, IoError>)
    ensures r.Err? <==> existing.Some? && !existing.value.NFile?
    ensures r.Ok? ==> r.value == Written(NFile(content), 0)
  {
    match existing
    case Some(NDir(_)) => Err(WriteOverDirectory(target))
    case Some(NOther) => Err(WriteOverSpecial(target))
    case _ => Ok(Written(NFile(content), 0))
  }

  /** The children a mirrored directory starts from: the existing directory's, or none. */
  function ChildrenOf(existing: Option<Node>): map<string, Node> {
    if existing.Some? && existing.value.NDir? then existing.value.children else map[]
  }

  /**
   * `processFile` for an entry that is not skipped, given what its
   * destination holds: a directory entry leaves a directory behind, a file
   * entry a file.
   */
  function Process(transpile: Transpiler, e: Entry, existing: Option<Node>): (r: Result<Written, IoError>)
    requires !PlanFor(e).Skip?
    ensures r.Ok? ==> (r.value.node.NDir? <==> e.tree.Dir?)
    ensures r.Ok? ==> (r.value.node.NFile? <==> e.tree.File?)
    decreases e, 0
  {
    match PlanFor(e)
    case MirrorDir(n) =>
      if existing.Some? && !existing.value.NDir? then Err(MkdirOverNonDirectory(n))
      else
        var s :- ScanList(transpile, e.tree.listing, ChildrenOf(existing));
        Ok(Written(NDir(s.dest), s.writes))
    case Transpile(n) => TranspileFile(transpile, e.tree.content, existing, n)
    case Copy(n) => CopyFile(e.tree.content, existing, n)
  }

  /** The destination directory after processing the first entry of a listing. */
  function Step(transpile: Transpiler, e: Entry, dest: map<string, Node>): (r: Result<Scanned, IoError>)
    ensures r.Ok? ==> dest.Keys <= r.value.dest.Keys
    decreases e, 1
  {
    var p := PlanFor(e);
    if p.Skip? then Ok(Scanned(dest, 0))
    else
      var w :- Process(transpile, e, Get(dest, p.target));
      Ok(Scanned(dest[p.target := w.node], w.writes))
  }

  /**
   * The entries of one source directory processed in listing order against
   * a destination directory. Nothing is ever deleted: every name the
   * destination held is still there afterwards.
   */
  function ScanList(transpile: Transpiler, listing: seq<Entry>, dest: map<string, Node>): (r: Result<Scanned, IoError>)
    ensures r.Ok? ==> dest.Keys <= r.value.dest.Keys
    decreases listing
  {
    if listing == [] then Ok(Scanned(dest, 0))
    else
      var first :- Step(transpile, listing[0], dest);
      var rest :- ScanList(transpile, listing[1..], first.dest);
      Ok(Scanned(rest.dest, first.writes + rest.writes))
  }

  /**
   * `scanDirectory` on a source root: it must be a directory (`readdir`
   * fails otherwise), and a scan never removes a destination entry.
   * `ScanDirectoryTheorems` states what a successful scan leaves behind.
   */
  function ScanDirectory(transpile: Transpiler, src: Tree, dest: map<string, Node>): (r: Result<Scanned, IoError>)
    ensures r.Ok? ==> src.Dir?
    ensures r.Ok? ==> dest.Keys <= r.value.dest.Keys
  {
    if src.Dir? then ScanList(transpile, src.listing, dest) else Err(NotADirectory)
  }

  // ---------------------------------------------------------------------
  // The mapping, declaratively

  /** The destination names a listing writes to. */
  ghost function Targets(listing: seq<Entry>): set<string> {
    set i | 0 <= i < |listing| && !PlanFor(listing[i]).Skip? :: PlanFor(listing[i]).target
  }

  /** No two siblings share a destination name, at any depth. */
  ghost predicate NoCollision(listing: seq<Entry>)
    decreases listing
  {
    && (forall i, j ::
          0 <= i < |listing| && 0 <= j < |listing| && i != j
          && !PlanFor(listing[i]).Skip? && !PlanFor(listing[j]).Skip?
          ==> PlanFor(listing[i]).target != PlanFor(listing[j]).target)
    && (forall i :: 0 <= i < |listing| ==> NoCollisionBelow(listing[i]))
  }

  ghost predicate NoCollisionBelow(e: Entry)
    decreases e
  {
    e.tree.Dir? ==> NoCollision(e.tree.listing)
  }

  /**
   * What a directory's destination holds after a scan, entry by entry:
   * names no entry targets are untouched, and each target holds the mirror
   * of its entry.
   */
  ghost predicate Mirrored(transpile: Transpiler, listing: seq<Entry>, before: map<string, Node>, after: map<string, Node>)
    decreases listing
  {
    && (forall k :: k !in Targets(listing) ==> Get(after, k) == Get(before, k))
    && (forall i :: 0 <= i < |listing| && !PlanFor(listing[i]).Skip? ==>
          MirroredEntry(transpile, listing[i], Get(before, PlanFor(listing[i]).target), Get(after, PlanFor(listing[i]).target)))
  }

  /**
   * One entry's destination: a directory holds the mirror of its listing; a
   * transpiled file holds output equal, once trimmed, to the transpiled
   * source, and is either untouched or exactly that output; a copied file
   * holds the source's bytes.
   */
  ghost predicate MirroredEntry(transpile: Transpiler, e: Entry, before: Option<Node>, after: Option<Node>)
    decreases e
  {
    match PlanFor(e)
    case Skip => after == before
    case MirrorDir(_) =>
      after.Some? && after.value.NDir? && Mirrored(transpile, e.tree.listing, ChildrenOf(before), after.value.children)
    case Transpile(_) =>
      && after.Some? && after.value.NFile?
      && Text.Trim(after.value.content) == Text.Trim(transpile(e.tree.content))
      && (after == before || after.value.content == transpile(e.tree.content))
    case Copy(_) => after == Some(NFile(e.tree.content))
  }

  /** Whether every destination name a listing targets can take what is written there. */
  ghost predicate Compatible(listing: seq<Entry>, dest: map<string, Node>)
    decreases listing
  {
    forall i :: 0 <= i < |listing| && !PlanFor(listing[i]).Skip? ==>
      CompatibleEntry(listing[i], Get(dest, PlanFor(listing[i]).target))
  }

  ghost predicate CompatibleEntry(e: Entry, existing: Option<Node>)
    decreases e
  {
    match PlanFor(e)
    case Skip => true
    case MirrorDir(_) => existing.None? || (existing.value.NDir? && Compatible(e.tree.listing, existing.value.children))
    case _ => existing.None? || existing.value.NFile?
  }

  // ---------------------------------------------------------------------
  // Lemmas

  lemma TargetsTail(listing: seq<Entry>)
    requires listing != []
    ensures Targets(listing[1..]) <= Targets(listing)
    ensures !PlanFor(listing[0]).Skip? ==> PlanFor(listing[0]).target in Targets(listing)
    ensures Targets(listing) <= Targets(listing[1..]) + (if PlanFor(listing[0]).Skip? then {} else {PlanFor(listing[0]).target})
  {
    forall k | k in Targets(listing[1..]) ensures k in Targets(listing) {
      var i :| 0 <= i < |listing[1..]| && !PlanFor(listing[1..][i]).Skip? && PlanFor(listing[1..][i]).target == k;
      assert listing[i + 1] == listing[1..][i];
    }
    forall k | k in Targets(listing) ensures k in Targets(listing[1..]) || (!PlanFor(listing[0]).Skip? && k == PlanFor(listing[0]).target) {
      var i :| 0 <= i < |listing| && !PlanFor(listing[i]).Skip? && PlanFor(listing[i]).target == k;
      if i > 0 {
        assert listing[1..][i - 1] == listing[i];
      }
    }
  }

  /** Under no collision, the first entry's target is not targeted again later in the listing. */
  lemma FirstTargetUnique(listing: seq<Entry>)
    requires listing != [] && NoCollision(listing)
    requires !PlanFor(listing[0]).Skip?
    ensures PlanFor(listing[0]).target !in Targets(listing[1..])
  {
    var tail := listing[1..];
    forall i | 0 <= i < |tail| && !PlanFor(tail[i]).Skip?
      ensures PlanFor(tail[i]).target != PlanFor(listing[0]).target
    {
      assert tail[i] == listing[i + 1];
    }
  }

  lemma NoCollisionTail(listing: seq<Entry>)
    requires listing != [] && NoCollision(listing)
    ensures NoCollision(listing[1..])
    ensures NoCollisionBelow(listing[0])
  {
    var tail := listing[1..];
    forall i, j | 0 <= i < |tail| && 0 <= j < |tail| && i != j && !PlanFor(tail[i]).Skip? && !PlanFor(tail[j]).Skip?
      ensures PlanFor(tail[i]).target != PlanFor(tail[j]).target
    {
      assert tail[i] == listing[i + 1] && tail[j] == listing[j + 1];
    }
    forall i | 0 <= i < |tail| ensures NoCollisionBelow(tail[i]) {
      assert tail[i] == listing[i + 1];
    }
  }

  /** A scan writes nothing outside the names its listing targets. */
  lemma {:induction false} ScanFrame(transpile: Transpiler, listing: seq<Entry>, dest: map<string, Node>, k: string)
    requires ScanList(transpile, listing, dest).Ok?
    requires k !in Targets(listing)
    ensures Get(ScanList(transpile, listing, dest).value.dest, k) == Get(dest, k)
    decreases listing
  {
    if listing != [] {
      TargetsTail(listing);
      var first := Step(transpile, listing[0], dest).value;
      ScanFrame(transpile, listing[1..], first.dest, k);
    }
  }

  /** The mapping theorem for one entry. */
  lemma {:induction false} ProcessMirrors(transpile: Transpiler, e: Entry, existing: Option<Node>)
    requires !PlanFor(e).Skip? && NoCollisionBelow(e)
    requires Process(transpile, e, existing).Ok?
    ensures MirroredEntry(transpile, e, existing, Some(Process(transpile, e, existing).value.node))
    decreases e, 0
  {
    if PlanFor(e).MirrorDir? {
      ScanMirrors(transpile, e.tree.listing, ChildrenOf(existing));
    }
  }

  /**
   * The mapping theorem: when no two siblings share a destination name, a
   * successful scan leaves every untargeted name alone and mirrors every
   * entry into its target.
   */
  lemma {:induction false} ScanMirrors(transpile: Transpiler, listing: seq<Entry>, dest: map<string, Node>)
    requires NoCollision(listing)
    requires ScanList(transpile, listing, dest).Ok?
    ensures Mirrored(transpile, listing, dest, ScanList(transpile, listing, dest).value.dest)
    decreases listing
  {
    if listing != [] {
      var e := listing[0];
      var first := Step(transpile, e, dest).value;
      var after := ScanList(transpile, listing[1..], first.dest).value.dest;
      NoCollisionTail(listing);
      ScanMirrors(transpile, listing[1..], first.dest);
      if !PlanFor(e).Skip? {
        var t := PlanFor(e).target;
        FirstTargetUnique(listing);
        ProcessMirrors(transpile, e, Get(dest, t));
        ScanFrame(transpile, listing[1..], first.dest, t);
      }
      MirroredCons(transpile, listing, dest, first.dest, after);
    }
  }

  /** The mirror of a listing from the first entry's mirror and the mirror of the rest. */
  lemma MirroredCons(transpile: Transpiler, listing: seq<Entry>, dest: map<string, Node>, dest1: map<string, Node>, after: map<string, Node>)
    requires listing != [] && NoCollision(listing)
    requires Mirrored(transpile, listing[1..], dest1, after)
    requires PlanFor(listing[0]).Skip? ==> dest1 == dest
    requires !PlanFor(listing[0]).Skip? ==>
      && (forall k :: k != PlanFor(listing[0]).target ==> Get(dest1, k) == Get(dest, k))
      && MirroredEntry(transpile, listing[0], Get(dest, PlanFor(listing[0]).target), Get(after, PlanFor(listing[0]).target))
    ensures Mirrored(transpile, listing, dest, after)
  {
    var e := listing[0];
    var tail := listing[1..];
    TargetsTail(listing);
    forall k | k !in Targets(listing) ensures Get(after, k) == Get(dest, k) {
      assert k !in Targets(tail);
    }
    forall i | 0 <= i < |listing| && !PlanFor(listing[i]).Skip?
      ensures MirroredEntry(transpile, listing[i], Get(dest, PlanFor(listing[i]).target), Get(after, PlanFor(listing[i]).target))
    {
      if i > 0 {
        assert tail[i - 1] == listing[i];
        if !PlanFor(e).Skip? {
          assert PlanFor(listing[i]).target != PlanFor(e).target;
        }
      }
    }
  }

  /** Processing one entry again over its own result writes nothing and changes nothing. */
  lemma {:induction false} ProcessIdempotent(transpile: Transpiler, e: Entry, existing: Option<Node>)
    requires !PlanFor(e).Skip? && NoCollisionBelow(e)
    requires Process(transpile, e, existing).Ok?
    ensures var w := Process(transpile, e, existing).value;
      Process(transpile, e, Some(w.node)) == Ok(Written(w.node, 0))
    decreases e, 0
  {
    if PlanFor(e).MirrorDir? {
      ScanIdempotent(transpile, e.tree.listing, ChildrenOf(existing));
    }
  }

  /**
   * Idempotence: when no two siblings share a destination name, scanning an
   * unchanged source again over the result of a scan transpiles no file
   * again and leaves the destination as it is.
   */
  lemma {:induction false} ScanIdempotent(transpile: Transpiler, listing: seq<Entry>, dest: map<string, Node>)
    requires NoCollision(listing)
    requires ScanList(transpile, listing, dest).Ok?
    ensures var after := ScanList(transpile, listing, dest).value.dest;
      ScanList(transpile, listing, after) == Ok(Scanned(after, 0))
    decreases listing
  {
    if listing != [] {
      var e := listing[0];
      var first := Step(transpile, e, dest).value;
      var after := ScanList(transpile, listing[1..], first.dest).value.dest;
      NoCollisionTail(listing);
      ScanIdempotent(transpile, listing[1..], first.dest);
      if !PlanFor(e).Skip? {
        var t := PlanFor(e).target;
        FirstTargetUnique(listing);
        ScanFrame(transpile, listing[1..], first.dest, t);
        var w := Process(transpile, e, Get(dest, t)).value;
        ProcessIdempotent(transpile, e, Get(dest, t));
        assert Get(after, t) == Some(w.node);
        assert after[t := w.node] == after;
        assert Step(transpile, e, after) == Ok(Scanned(after, 0));
      }
    }
  }

  /** A non-skipped entry can be processed exactly when its target can take it. */
  lemma {:induction false} ProcessSucceeds(transpile: Transpiler, e: Entry, existing: Option<Node>)
    requires !PlanFor(e).Skip? && NoCollisionBelow(e)
    ensures Process(transpile, e, existing).Ok? <==> CompatibleEntry(e, existing)
    decreases e, 0
  {
    if PlanFor(e).MirrorDir? && (existing.None? || existing.value.NDir?) {
      ScanSucceeds(transpile, e.tree.listing, ChildrenOf(existing));
    }
  }

  /**
   * When no two siblings share a destination name, a scan fails exactly when
   * some target holds something of the wrong kind: a non-directory where a
   * directory is mirrored, or a directory or (as modelled, of any kind)
   * special entry where a file is written.
   */
  lemma {:induction false} ScanSucceeds(transpile: Transpiler, listing: seq<Entry>, dest: map<string, Node>)
    requires NoCollision(listing)
    ensures ScanList(transpile, listing, dest).Ok? <==> Compatible(listing, dest)
    decreases listing
  {
    if listing != [] {
      var e := listing[0];
      NoCollisionTail(listing);
      var step := Step(transpile, e, dest);
      if PlanFor(e).Skip? {
        assert step == Ok(Scanned(dest, 0));
        ScanSucceeds(transpile, listing[1..], dest);
        CompatibleTail(listing, dest, dest);
      } else {
        var t := PlanFor(e).target;
        ProcessSucceeds(transpile, e, Get(dest, t));
        if step.Ok? {
          FirstTargetUnique(listing);
          var d1 := step.value.dest;
          assert forall k :: k != t ==> Get(d1, k) == Get(dest, k);
          ScanSucceeds(transpile, listing[1..], d1);
          CompatibleTail(listing, dest, d1);
        } else {
          assert !CompatibleEntry(e, Get(dest, t));
          assert ScanList(transpile, listing, dest).Err?;
        }
      }
    }
  }

  /** Compatibility of the rest of a listing does not see the first entry's write. */
  lemma CompatibleTail(listing: seq<Entry>, dest: map<string, Node>, dest1: map<string, Node>)
    requires listing != [] && NoCollision(listing)
    requires forall k :: k in Targets(listing[1..]) ==> Get(dest1, k) == Get(dest, k)
    ensures Compatible(listing, dest) <==>
      (PlanFor(listing[0]).Skip? || CompatibleEntry(listing[0], Get(dest, PlanFor(listing[0]).target)))
      && Compatible(listing[1..], dest1)
  {
    var tail := listing[1..];
    forall i | 0 <= i < |tail| && !PlanFor(tail[i]).Skip?
      ensures Get(dest1, PlanFor(tail[i]).target) == Get(dest, PlanFor(tail[i]).target)
    {
      assert PlanFor(tail[i]).target in Targets(tail);
    }
    forall i | 0 <= i < |tail| ensures tail[i] == listing[i + 1] { }
  }

  /** A `.ts` file is transpiled to the same stem with extension `.js`. */
  lemma PlanTs(stem: string, content: string)
    requires stem != []
    ensures PlanFor(Entry(stem + ".ts", File(content))) == Transpile(stem + ".js")
  {
    Paths.ExtNameOf(stem, ".ts");
  }

  /** A `.tsx` file is transpiled to the same stem with extension `.js`. */
  lemma PlanTsx(stem: string, content: string)
    requires stem != []
    ensures PlanFor(Entry(stem + ".tsx", File(content))) == Transpile(stem + ".js")
  {
    Paths.ExtNameOf(stem, ".tsx");
  }

  /** A `.js` file is copied under its own name. */
  lemma PlanJs(stem: string, content: string)
    requires stem != []
    ensures PlanFor(Entry(stem + ".js", File(content))) == Copy(stem + ".js")
  {
    Paths.ExtNameOf(stem, ".js");
  }

  /** A file with any other extension, or none, is copied under its own name. */
  lemma PlanCopy(name: string, content: string)
    requires Paths.ExtName(name) != ".ts" && Paths.ExtName(name) != ".tsx"
    ensures PlanFor(Entry(name, File(content))) == Copy(name)
  {
  }

  /**
   * The scan theorems for `scanDirectory` on a source root. A scan succeeds
   * only on a directory. When no two siblings share a destination name, it
   * succeeds exactly when every target can take what is written there; a
   * successful scan mirrors the source into the destination; and scanning
   * again over its result writes no transpiled file and changes nothing.
   */
  lemma ScanDirectoryTheorems(transpile: Transpiler, src: Tree, dest: map<string, Node>)
    ensures ScanDirectory(transpile, src, dest).Ok? ==> src.Dir?
    ensures !src.Dir? ==> ScanDirectory(transpile, src, dest) == Err(NotADirectory)
    ensures src.Dir? && NoCollision(src.listing) ==>
      (ScanDirectory(transpile, src, dest).Ok? <==> Compatible(src.listing, dest))
    ensures src.Dir? && NoCollision(src.listing) && ScanDirectory(transpile, src, dest).Ok? ==>
      var after := ScanDirectory(transpile, src, dest).value.dest;
      && Mirrored(transpile, src.listing, dest, after)
      && ScanDirectory(transpile, src, after) == Ok(Scanned(after, 0))
  {
    if src.Dir? && NoCollision(src.listing) {
      ScanSucceeds(transpile, src.listing, dest);
      if ScanList(transpile, src.listing, dest).Ok? {
        ScanMirrors(transpile, src.listing, dest);
        ScanIdempotent(transpile, src.listing, dest);
      }
    }
  }

  /** Copying a file over a missing entry or a file puts the source's bytes there and transpiles nothing. */
  lemma StepCopy(transpile: Transpiler, e: Entry, dest: map<string, Node>)
    requires PlanFor(e).Copy?
    requires PlanFor(e).target !in dest || dest[PlanFor(e).target].NFile?
    ensures Step(transpile, e, dest) == Ok(Scanned(dest[PlanFor(e).target := NFile(e.tree.content)], 0))
  {
  }

  /** Transpiling over a missing entry, or a file whose trimmed text differs, writes the output. */
  lemma StepTranspileWrites(transpile: Transpiler, e: Entry, dest: map<string, Node>)
    requires PlanFor(e).Transpile?
    requires var t := PlanFor(e).target;
      t !in dest || (dest[t].NFile? && Text.Trim(dest[t].content) != Text.Trim(transpile(e.tree.content)))
    ensures Step(transpile, e, dest) == Ok(Scanned(dest[PlanFor(e).target := NFile(transpile(e.tree.content))], 1))
  {
  }

  // ---------------------------------------------------------------------
  // Concrete cases

  /**
   * Without the no-collision hypothesis idempotence fails: `<stem>.ts` and
   * `<stem>.js` in one directory both target `<stem>.js`, the copy
   * overwrites the transpiled output, and every later scan transpiles the
   * `.ts` file again.
   */
  lemma CollisionBreaksIdempotence(transpile: Transpiler, stem: string, x: string, y: string)
    requires stem != []
    requires Text.Trim(transpile(x)) != Text.Trim(y)
    ensures
      var src := [Entry(stem + ".ts", File(x)), Entry(stem + ".js", File(y))];
      var out := map[stem + ".js" := NFile(y)];
      && !NoCollision(src)
      && ScanList(transpile, src, map[]) == Ok(Scanned(out, 1))
      && ScanList(transpile, src, out) == Ok(Scanned(out, 1))
  {
    var src := [Entry(stem + ".ts", File(x)), Entry(stem + ".js", File(y))];
    var out := map[stem + ".js" := NFile(y)];
    CollisionScan(transpile, stem, x, y, map[]);
    CollisionScan(transpile, stem, x, y, out);
    PlanTs(stem, x);
    PlanJs(stem, y);
    assert PlanFor(src[0]).target == PlanFor(src[1]).target;
  }

  /** One scan of the colliding pair, over an empty destination or over its own output. */
  lemma CollisionScan(transpile: Transpiler, stem: string, x: string, y: string, dest: map<string, Node>)
    requires stem != []
    requires Text.Trim(transpile(x)) != Text.Trim(y)
    requires dest == map[] || dest == map[stem + ".js" := NFile(y)]
    ensures ScanList(transpile, [Entry(stem + ".ts", File(x)), Entry(stem + ".js", File(y))], dest)
      == Ok(Scanned(map[stem + ".js" := NFile(y)], 1))
  {
    var a := Entry(stem + ".ts", File(x));
    var b := Entry(stem + ".js", File(y));
    var t := stem + ".js";
    PlanTs(stem, x);
    StepTranspileWrites(transpile, a, dest);
    var c := dest[t := NFile(transpile(x))];
    assert c == map[t := NFile(transpile(x))];
    CollisionCopy(transpile, stem, y, c);
    assert [a, b][1..] == [b];
  }

  /** The copy of `<stem>.js` then overwrites the transpiled output. */
  lemma CollisionCopy(transpile: Transpiler, stem: string, y: string, c: map<string, Node>)
    requires stem != []
    requires c.Keys == {stem + ".js"} && c[stem + ".js"].NFile?
    ensures ScanList(transpile, [Entry(stem + ".js", File(y))], c) == Ok(Scanned(map[stem + ".js" := NFile(y)], 0))
  {
    var b := Entry(stem + ".js", File(y));
    var t := stem + ".js";
    PlanJs(stem, y);
    StepCopy(transpile, b, c);
    assert c[t := NFile(y)] == map[t := NFile(y)];
    assert [b][1..] == [];
  }
}
