/** The mesh loaders. The MFEM and Gmsh loaders check the stream's format
    and hand the stream over to mfem. The MEDIT loader reads the file
    itself. It first scans the lines for the dimension and for each entity
    keyword's count and the position of its first record. It then infers
    whether the mesh is a surface or a volume mesh and reads the records of
    each section, in the order of the keyword table, into the mesh. */
module MeshLoaders {
  import opened Wrappers
  import opened Text
  import opened MeshFormats
  import opened Elements

  /** What a loader ends with: a value, a false status with its error, an
      exception with its message, or a failed assertion that stops the
      program. */
  datatype Outcome<T> = Done(value: T) | Failed(error: string) | Raised(message: string) | Aborted

  const UnrecognizedFormat: string := "Unrecognized mesh format."
  const CannotMfem: string := "Cannot determine MFEM mesh format version."
  const CannotGmsh: string := "Cannot determine Gmsh mesh format version."
  const CannotMedit: string := "Cannot determine Medit mesh format version."
  const InvalidDimension: string := "Invalid mesh dimension: "
  const BadFormat: string := "Bad mesh format."
  const BadFormatting: string := "Bad mesh formatting."
  const UnhandledCase: string := "Unhandled case."
  /** The message of the std::out_of_range that std::map::at throws for a
      missing key. */
  const MissingKey: string := "map::at"
  const DimensionKey: string := "Dimension"

  /** The loaders of the formats mfem reads itself: the format of the
      stream's first line decides, and the stream is rewound, so that
      Done(0) means that mfem::Mesh reads the stream from its start. */
  function LoadDelegated(headers: map<string, MeshFormat>, s: string, format: MeshFormat, cannot: string): (r: Outcome<nat>)
    ensures r.Raised? <==> GetMeshFormat(headers, s, 0, true).0 == None
    ensures r.Raised? ==> r.message == UnrecognizedFormat
    ensures r.Done? <==> GetMeshFormat(headers, s, 0, true).0 == Some(format)
    ensures r.Done? ==> r.value == 0
    ensures r.Failed? ==> r.error == cannot
    ensures !r.Aborted?
  {
    var (fmt, p) := GetMeshFormat(headers, s, 0, true);
    if fmt.None? then Raised(UnrecognizedFormat)
    else if fmt.value == format then Done(p)
    else Failed(cannot)
  }

  /** MeshLoader<MFEM>::load. */
  function LoadMfem(headers: map<string, MeshFormat>, s: string): (r: Outcome<nat>)
    ensures r.Failed? ==> r.error == CannotMfem
    ensures r.Done? <==> GetMeshFormat(headers, s, 0, true).0 == Some(MFEM)
  {
    LoadDelegated(headers, s, MFEM, CannotMfem)
  }

  /** MeshLoader<GMSH>::load. */
  function LoadGmsh(headers: map<string, MeshFormat>, s: string): (r: Outcome<nat>)
    ensures r.Failed? ==> r.error == CannotGmsh
    ensures r.Done? <==> GetMeshFormat(headers, s, 0, true).0 == Some(GMSH)
  {
    LoadDelegated(headers, s, GMSH, CannotGmsh)
  }

  // ----- the MEDIT loader: the scan -----

  /** What the scan gathers: the space dimension (0 until a Dimension line
      is read), and for each entity keyword the stream position after its
      count line and the count. None stands for the -1 that tellg returns
      when the stream is not good: when the count line is missing, and also
      when it ends the stream without a line break, since getline then sets
      eofbit. */
  datatype Scan = Scan(spaceDim: int, pos: map<EntityKeyword, Option<nat>>, count: map<EntityKeyword, nat>)

  /** The first word of a line (operator>> into a std::string) and the
      position after it. */
  function Keyword(line: string): (r: (string, nat))
    ensures r.1 <= |line|
  {
    match ExtractWord(line, 0)
    case None => ([], |line|)
    case Some((w, e)) => (w, e)
  }

  /** The effect of the keyword line kw at the stream position q after it:
      None when the stream ends with it, otherwise the new state and the
      position after the count line. The position recorded is None also
      when the count line is the last one and has no line break. */
  function Record(s: string, q: nat, st: Scan, ent: EntityKeyword): (r: (Scan, Option<nat>))
    requires q <= |s|
    ensures r.1.Some? ==> q < r.1.value <= |s|
    ensures r.0.spaceDim == st.spaceDim
    ensures r.0.pos.Keys == st.pos.Keys + {ent} && r.0.count.Keys == st.count.Keys + {ent}
    ensures forall e :: e in st.count && e != ent ==> r.0.count[e] == st.count[e]
    ensures forall e :: e in st.pos && e != ent ==> r.0.pos[e] == st.pos[e]
    ensures r.1.None? ==> r.0.pos[ent] == None && r.0.count[ent] == 0
    ensures r.1.Some? && s[r.1.value - 1] == '\n' ==> r.0.pos[ent] == r.1
    ensures r.1.Some? && s[r.1.value - 1] != '\n' ==> r.0.pos[ent] == None && r.1.value == |s|
  {
    match GetLine(s, q)
    case None => (st.(pos := st.pos[ent := None], count := st.count[ent := 0]), None)
    case Some((cl, q2)) =>
      var at := if s[q2 - 1] == '\n' then Some(q2) else None;
      (st.(pos := st.pos[ent := at], count := st.count[ent := StoredSize(cl, 0)]), Some(q2))
  }

  /** The scan of the lines from position p (the getline loop): blank
      lines are skipped; a Dimension line sets the space dimension or, out
      of [2, 3], ends the load with an error; an entity keyword line makes
      the next line its count line; any other line is skipped. */
  function ScanFrom(keys: seq<(string, EntityKeyword)>, s: string, p: nat, st: Scan): (r: Outcome<Scan>)
    requires p <= |s|
    ensures r.Done? || r.Failed?
    ensures r.Failed? ==> exists d: int :: (d < 2 || d > 3) && r.error == InvalidDimension + IntText(d)
    decreases |s| - p
  {
    match GetLine(s, p)
    case None => Done(st)
    case Some((raw, q)) =>
      var line := Trim(raw);
      if line == [] then ScanFrom(keys, s, q, st)
      else
        var (kw, e) := Keyword(line);
        if kw == DimensionKey then
          var d := StoredInt(line, e);
          if d < 2 || d > 3 then Failed(InvalidDimension + IntText(d))
          else ScanFrom(keys, s, q, st.(spaceDim := d))
        else match Find(keys, kw)
          case None => ScanFrom(keys, s, q, st)
          case Some(ent) =>
            var (st', next) := Record(s, q, st, ent);
            if next.None? then Done(st') else ScanFrom(keys, s, next.value, st')
  }

  // ----- the MEDIT loader: the kind of mesh -----

  /** The arguments of the mfem::Mesh constructor the loader calls:
      dimension, vertices, elements, boundary elements and space dimension
      (-1 leaves it to the dimension). */
  datatype MeshSizes = MeshSizes(dim: int, nv: int, ne: int, nbe: int, sdim: int)

  /** The mesh to build and whether it is a surface mesh. */
  datatype Kind = Kind(sizes: MeshSizes, surface: bool)

  /** No entity of kind ent was counted, or none was declared. */
  predicate NoneCounted(st: Scan, ent: EntityKeyword)
  {
    ent !in st.count || st.count[ent] == 0
  }

  /** The inference of the kind of mesh. A 3D file without tetrahedra and
      a 2D file without triangles are surface meshes of one dimension less
      (the 2D case passes the space dimension where mfem expects the
      boundary count), the others volume meshes. A count that the chosen
      constructor needs and that the file does not declare makes map::at
      throw. */
  function InferKind(st: Scan): (r: Outcome<Kind>)
    ensures st.spaceDim != 2 && st.spaceDim != 3 ==> r == Raised(UnhandledCase)
    ensures r.Done? ==> (r.value.surface <==> (st.spaceDim == 3 && NoneCounted(st, Tetrahedra)) || (st.spaceDim == 2 && NoneCounted(st, Triangles)))
    ensures r.Done? ==> r.value.sizes.dim == (if r.value.surface then st.spaceDim - 1 else st.spaceDim)
    ensures r.Done? ==> Vertices in st.count && r.value.sizes.nv == st.count[Vertices]
    ensures r.Done? && st.spaceDim == 3 && !r.value.surface ==>
      Tetrahedra in st.count && Triangles in st.count &&
      r.value.sizes.ne == st.count[Tetrahedra] && r.value.sizes.nbe == st.count[Triangles]
    ensures r.Done? && st.spaceDim == 3 && r.value.surface ==>
      Triangles in st.count && Edges in st.count &&
      r.value.sizes.ne == st.count[Triangles] && r.value.sizes.nbe == st.count[Edges]
    ensures r.Done? && st.spaceDim == 2 && !r.value.surface ==>
      Triangles in st.count && Edges in st.count &&
      r.value.sizes.ne == st.count[Triangles] && r.value.sizes.nbe == st.count[Edges]
    ensures r.Done? && st.spaceDim == 2 && r.value.surface ==>
      Edges in st.count && r.value.sizes == MeshSizes(1, st.count[Vertices], st.count[Edges], 2, -1)
    ensures !r.Done? && (st.spaceDim == 2 || st.spaceDim == 3) ==> r == Raised(MissingKey)
  {
    var d, c := st.spaceDim, st.count;
    if d == 3 && NoneCounted(st, Tetrahedra) then
      if Vertices in c && Triangles in c && Edges in c then Done(Kind(MeshSizes(2, c[Vertices], c[Triangles], c[Edges], 3), true))
      else Raised(MissingKey)
    else if d == 2 && NoneCounted(st, Triangles) then
      if Vertices in c && Edges in c then Done(Kind(MeshSizes(1, c[Vertices], c[Edges], 2, -1), true))
      else Raised(MissingKey)
    else if d == 3 then
      if Vertices in c && Tetrahedra in c && Triangles in c then Done(Kind(MeshSizes(3, c[Vertices], c[Tetrahedra], c[Triangles], 3), false))
      else Raised(MissingKey)
    else if d == 2 then
      if Vertices in c && Triangles in c && Edges in c then Done(Kind(MeshSizes(2, c[Vertices], c[Triangles], c[Edges], 2), false))
      else Raised(MissingKey)
    else Raised(UnhandledCase)
  }

  // ----- the MEDIT loader: the records -----

  /** A cell as the loader adds it to the mesh: geometry, vertex indices
      (the file's 1-based numbers minus 1) and reference. */
  datatype Cell = Cell(geometry: GeometryType, vertices: seq<int>, attribute: int)

  /** What has been added to the mesh so far. */
  datatype Built = Built(vertices: seq<seq<real>>, elements: seq<Cell>, boundary: seq<Cell>)

  /** The cell of a record of n vertex numbers and a reference. */
  function CellOf(g: GeometryType, line: string, n: nat): (c: Cell)
    ensures c.geometry == g && |c.vertices| == n
    ensures forall i :: 0 <= i < n ==> c.vertices[i] == ExtractInts(line, 0, n + 1)[i] - 1
    ensures c.attribute == ExtractInts(line, 0, n + 1)[n]
  {
    var v := ExtractInts(line, 0, n + 1);
    Cell(g, seq(n, i requires 0 <= i < n => v[i] - 1), v[n])
  }

  /** What one record line of section ent adds: a vertex of spaceDim
      coordinates (its reference is ignored); a triangle as an element in
      2D and on a surface, as a boundary element in a 3D volume; a
      tetrahedron as an element; an edge as a boundary element. Another
      space dimension raises. */
  function AddRecord(ent: EntityKeyword, line: string, spaceDim: int, surface: bool, b: Built): (r: Outcome<Built>)
    ensures ent == Vertices ==> r.Done? && r.value == b.(vertices := b.vertices + [ExtractReals(line, 0, if spaceDim < 0 then 0 else spaceDim)])
    ensures ent == Triangles && (spaceDim == 2 || (spaceDim == 3 && surface)) ==> r == Done(b.(elements := b.elements + [CellOf(Triangle, line, 3)]))
    ensures ent == Triangles && spaceDim == 3 && !surface ==> r == Done(b.(boundary := b.boundary + [CellOf(Triangle, line, 3)]))
    ensures ent == Tetrahedra ==> r == Done(b.(elements := b.elements + [CellOf(Tetrahedron, line, 4)]))
    ensures ent == Edges && (spaceDim == 2 || spaceDim == 3) ==> r == Done(b.(boundary := b.boundary + [CellOf(Segment, line, 2)]))
    ensures (ent == Triangles || ent == Edges) && spaceDim != 2 && spaceDim != 3 ==> r == Raised(UnhandledCase)
  {
    match ent
    case Vertices => Done(b.(vertices := b.vertices + [ExtractReals(line, 0, if spaceDim < 0 then 0 else spaceDim)]))
    case Triangles =>
      if spaceDim == 2 || (spaceDim == 3 && surface) then Done(b.(elements := b.elements + [CellOf(Triangle, line, 3)]))
      else if spaceDim == 3 then Done(b.(boundary := b.boundary + [CellOf(Triangle, line, 3)]))
      else Raised(UnhandledCase)
    case Tetrahedra => Done(b.(elements := b.elements + [CellOf(Tetrahedron, line, 4)]))
    case Edges =>
      if spaceDim == 2 || spaceDim == 3 then Done(b.(boundary := b.boundary + [CellOf(Segment, line, 2)]))
      else Raised(UnhandledCase)
  }

  /** The n record lines read from stream position p (None: a failed
      stream). A missing line ends the load with "Bad mesh format.". */
  function ReadRecords(s: string, p: Option<nat>, n: nat, ent: EntityKeyword, spaceDim: int, surface: bool, b: Built): (r: Outcome<Built>)
    decreases n
  {
    if n == 0 then Done(b)
    else if p.None? || p.value > |s| then Failed(BadFormat)
    else match GetLine(s, p.value)
      case None => Failed(BadFormat)
      case Some((line, q)) =>
        match AddRecord(ent, line, spaceDim, surface, b)
        case Done(b') => ReadRecords(s, Some(q), n - 1, ent, spaceDim, surface, b')
        case Failed(e) => Failed(e)
        case Raised(m) => Raised(m)
        case Aborted => Aborted
  }

  /** One section: the assertion on the space dimension of its case, then
      its records. */
  function ReadSection(s: string, p: Option<nat>, n: nat, ent: EntityKeyword, spaceDim: int, surface: bool, b: Built): (r: Outcome<Built>)
  {
    if (ent == Tetrahedra && spaceDim < 3) || ((ent == Triangles || ent == Edges) && spaceDim < 2) then Aborted
    else ReadRecords(s, p, n, ent, spaceDim, surface, b)
  }

  /** The sections in the order of the table t: a keyword the scan did not
      meet is skipped; the stream seeks to the position of the others. A
      seek to -1 fails the stream, and seeking a failed stream does nothing,
      so that failed is true from then on. */
  function ReadSections(t: seq<(string, EntityKeyword)>, s: string, st: Scan, surface: bool, failed: bool, b: Built): (r: Outcome<Built>)
    decreases |t|
  {
    if t == [] then Done(b)
    else
      var ent := t[0].1;
      if ent !in st.pos then ReadSections(t[1..], s, st, surface, failed, b)
      else
        var failed' := failed || st.pos[ent].None?;
        if ent !in st.count then Failed(BadFormatting)
        else match ReadSection(s, if failed' then None else st.pos[ent], st.count[ent], ent, st.spaceDim, surface, b)
          case Done(b') => ReadSections(t[1..], s, st, surface, failed', b')
          case Failed(e) => Failed(e)
          case Raised(m) => Raised(m)
          case Aborted => Aborted
  }

  /** The mesh the MEDIT loader builds: the constructor arguments and what
      was added (FinalizeMesh is not part of this model). */
  datatype LoadedMesh = LoadedMesh(sizes: MeshSizes, vertices: seq<seq<real>>, elements: seq<Cell>, boundary: seq<Cell>)

  /** MeshLoader<MEDIT>::load on the stream s, with the header table and
      the entity keyword table given. */
  function LoadMedit(headers: map<string, MeshFormat>, keys: seq<(string, EntityKeyword)>, s: string): (r: Outcome<LoadedMesh>)
    ensures GetMeshFormat(headers, s, 0, false).0 == None ==> r == Raised(UnrecognizedFormat)
    ensures GetMeshFormat(headers, s, 0, false).0.Some? && GetMeshFormat(headers, s, 0, false).0 != Some(MEDIT) ==> r == Failed(CannotMedit)
  {
    var (fmt, p) := GetMeshFormat(headers, s, 0, false);
    if fmt.None? then Raised(UnrecognizedFormat)
    else if fmt.value != MEDIT then Failed(CannotMedit)
    else match ScanFrom(keys, s, p, Scan(0, map[], map[]))
      case Failed(e) => Failed(e)
      case Raised(m) => Raised(m)
      case Aborted => Aborted
      case Done(st) =>
        match InferKind(st)
        case Failed(e) => Failed(e)
        case Raised(m) => Raised(m)
        case Aborted => Aborted
        case Done(k) =>
          match ReadSections(keys, s, st, k.surface, false, Built([], [], []))
          case Failed(e) => Failed(e)
          case Raised(m) => Raised(m)
          case Aborted => Aborted
          case Done(b) => Done(LoadedMesh(k.sizes, b.vertices, b.elements, b.boundary))
  }

  // ----- the MEDIT loader: what it makes of given lines -----

  /** A line that is one word. */
  predicate PlainWord(w: string)
  {
    w != [] && forall k :: 0 <= k < |w| ==> !IsSpace(w[k])
  }

  /** A one-word line is trimmed and split as written. */
  lemma WordFacts(w: string)
    requires PlainWord(w)
    ensures Trim(w) == w && Keyword(w) == (w, |w|)
  {
    TrimPadded([], w, []);
    assert [] + w + [] == w;
    ExtractWordOf(w, []);
    assert w + [] == w;
  }

  /** A count written by operator<< is a one-word line. */
  lemma CountWord(c: nat)
    ensures PlainWord(IntText(c)) && IsDigit(IntText(c)[0])
  {
  }

  /** A line read at p that is one word, neither Dimension nor a keyword
      of the table, is skipped. */
  lemma LineSkipped(keys: seq<(string, EntityKeyword)>, s: string, p: nat, w: string, q: nat, st: Scan)
    requires p <= |s| && GetLine(s, p) == Some((w, q))
    requires PlainWord(w) && w != DimensionKey && Find(keys, w) == None
    ensures ScanFrom(keys, s, p, st) == ScanFrom(keys, s, q, st)
  {
    WordFacts(w);
  }

  /** The text of a Dimension line and what the scan reads from it. */
  lemma DimensionText(d: int) returns (line: string)
    ensures line == DimensionKey + " " + IntText(d)
    ensures line != [] && Trim(line) == line
    ensures Keyword(line) == (DimensionKey, |DimensionKey|) && StoredInt(line, |DimensionKey|) == ClampInt(d)
  {
    var t := IntText(d);
    line := DimensionKey + " " + t;
    DimensionTrimmed(line, d, t);
    DimensionRead(line, d, t);
  }

  lemma DimensionTrimmed(line: string, d: int, t: string)
    requires t == IntText(d) && line == DimensionKey + " " + t
    ensures Trim(line) == line
  {
    var u := IntTextParts(d);
    assert line[|line| - 1] == u[|u| - 1];
    TrimPadded([], line, []);
    assert [] + line + [] == line;
  }

  lemma DimensionRead(line: string, d: int, t: string)
    requires t == IntText(d) && line == DimensionKey + " " + t
    ensures Keyword(line) == (DimensionKey, |DimensionKey|) && StoredInt(line, |DimensionKey|) == ClampInt(d)
  {
    ExtractWordOf(DimensionKey, " " + t);
    assert DimensionKey + (" " + t) == line;
    assert line == DimensionKey + " " + t + [];
    ExtractIntText(line, DimensionKey, " ", d, []);
  }

  /** A line "Dimension d" read at p sets the space dimension when d is 2
      or 3 and ends the load with "Invalid mesh dimension: d" otherwise,
      where d outside the range of an int is read as the nearest int. */
  lemma DimensionLine(keys: seq<(string, EntityKeyword)>, s: string, p: nat, d: int, q: nat, st: Scan)
    requires p <= |s| && GetLine(s, p) == Some((DimensionKey + " " + IntText(d), q))
    ensures ScanFrom(keys, s, p, st) ==
      if d < 2 || d > 3 then Failed(InvalidDimension + IntText(ClampInt(d))) else ScanFrom(keys, s, q, st.(spaceDim := d))
  {
    var line := DimensionText(d);
  }

  /** A MEDIT stream whose Dimension line, right after the version line,
      names a dimension other than 2 and 3 is rejected. */
  lemma DimensionRejected(headers: map<string, MeshFormat>, keys: seq<(string, EntityKeyword)>, s: string, p: nat, d: int, q: nat)
    requires GetMeshFormat(headers, s, 0, false) == (Some(MEDIT), p)
    requires p <= |s| && GetLine(s, p) == Some((DimensionKey + " " + IntText(d), q))
    requires d < 2 || d > 3
    ensures LoadMedit(headers, keys, s) == Failed(InvalidDimension + IntText(ClampInt(d)))
  {
    DimensionLine(keys, s, p, d, q, Scan(0, map[], map[]));
  }

  /** A count line's value is read back. */
  lemma CountLine(c: nat)
    requires c < SizeRange
    ensures StoredSize(IntText(c), 0) == c
  {
    var t := IntText(c);
    assert t == [] + [] + t + [];
    ExtractIntText(t, [], [], c, []);
  }

  /** A keyword line of the table read at p, followed by a count line,
      records the count for its entity, and the position after the count
      line when that line ends with a line break; a count line that ends
      the stream without one records -1 (None), because tellg fails once
      getline has set eofbit. */
  lemma EntityLineRecorded(keys: seq<(string, EntityKeyword)>, i: nat, s: string, p: nat, q: nat, c: nat, q2: nat, st: Scan)
    requires Bijective(keys) && i < |keys| && PlainWord(keys[i].0) && keys[i].0 != DimensionKey
    requires c < SizeRange
    requires p <= |s| && GetLine(s, p) == Some((keys[i].0, q)) && GetLine(s, q) == Some((IntText(c), q2))
    ensures ScanFrom(keys, s, p, st) == ScanFrom(keys, s, q2, st.(pos := st.pos[keys[i].1 := if s[q2 - 1] == '\n' then Some(q2) else None], count := st.count[keys[i].1 := c]))
    ensures s[q2 - 1] != '\n' ==> q2 == |s| && ScanFrom(keys, s, p, st) == Done(st.(pos := st.pos[keys[i].1 := None], count := st.count[keys[i].1 := c]))
  {
    FindAt(keys, i);
    WordFacts(keys[i].0);
    var ent := keys[i].1;
    var st' := st.(pos := st.pos[ent := if s[q2 - 1] == '\n' then Some(q2) else None], count := st.count[ent := c]);
    CountRecorded(s, q, st, ent, c, q2);
    assert ScanFrom(keys, s, p, st) == ScanFrom(keys, s, q2, st');
    if s[q2 - 1] != '\n' {
      assert ScanFrom(keys, s, q2, st') == Done(st');
    }
  }

  /** A count line read at q records its count, and the position after
      it unless it ends the stream without a line break. */
  lemma CountRecorded(s: string, q: nat, st: Scan, ent: EntityKeyword, c: nat, q2: nat)
    requires c < SizeRange
    requires q <= |s| && GetLine(s, q) == Some((IntText(c), q2))
    ensures Record(s, q, st, ent) == (st.(pos := st.pos[ent := if s[q2 - 1] == '\n' then Some(q2) else None], count := st.count[ent := c]), Some(q2))
  {
    CountLine(c);
  }

  /** No key of the table as written is a count. */
  lemma CountIsNoKey(c: nat)
    ensures Find(EntityKeywordsAsWritten(), IntText(c)) == None && IntText(c) != DimensionKey
  {
    var keys, t := EntityKeywordsAsWritten(), IntText(c);
    CountWord(c);
    forall j | 0 <= j < |keys| ensures keys[j].0 != t {
      assert keys[j].0[0] != t[0];
    }
    assert t[0] != DimensionKey[0];
  }

  /** As written, the entity table has no "Tetrahedra" key: the keyword
      line of a tetrahedra section and its count line are both skipped and
      the scan records nothing for them. */
  lemma TetrahedraSkippedAsWritten(s: string, p: nat, q: nat, c: nat, q2: nat, st: Scan)
    requires p <= |s| && GetLine(s, p) == Some((TetrahedraKey, q)) && GetLine(s, q) == Some((IntText(c), q2))
    ensures ScanFrom(EntityKeywordsAsWritten(), s, p, st) == ScanFrom(EntityKeywordsAsWritten(), s, q2, st)
  {
    var keys := EntityKeywordsAsWritten();
    assert PlainWord(TetrahedraKey);
    LineSkipped(keys, s, p, TetrahedraKey, q, st);
    CountWord(c);
    CountIsNoKey(c);
    LineSkipped(keys, s, q, IntText(c), q2, st);
  }

  /** With tetrahedra filed under their keyword, the same lines record the
      tetrahedra count. */
  lemma TetrahedraRecorded(s: string, p: nat, q: nat, c: nat, q2: nat, st: Scan)
    requires c < SizeRange
    requires p <= |s| && GetLine(s, p) == Some((TetrahedraKey, q)) && GetLine(s, q) == Some((IntText(c), q2))
    ensures ScanFrom(EntityKeywords(), s, p, st) ==
      ScanFrom(EntityKeywords(), s, q2, st.(pos := st.pos[Tetrahedra := if s[q2 - 1] == '\n' then Some(q2) else None], count := st.count[Tetrahedra := c]))
  {
    assert PlainWord(TetrahedraKey);
    EntityLineRecorded(EntityKeywords(), 1, s, p, q, c, q2, st);
  }

  /** A 3D scan without a tetrahedra count makes a surface mesh of
      dimension 2 whose elements are the triangles; one with tetrahedra
      makes a volume mesh of them. */
  lemma ThreeDimensionalKind(st: Scan)
    requires st.spaceDim == 3 && Vertices in st.count && Triangles in st.count && Edges in st.count
    ensures Tetrahedra !in st.count ==> InferKind(st) == Done(Kind(MeshSizes(2, st.count[Vertices], st.count[Triangles], st.count[Edges], 3), true))
    ensures Tetrahedra in st.count && st.count[Tetrahedra] > 0 ==>
      InferKind(st) == Done(Kind(MeshSizes(3, st.count[Vertices], st.count[Tetrahedra], st.count[Triangles], 3), false))
  {
  }

  /** The number of getline calls that succeed from position p. */
  function LineCount(s: string, p: nat): (n: nat)
    requires p <= |s|
    ensures n == 0 <==> p == |s|
    decreases |s| - p
  {
    match GetLine(s, p)
    case None => 0
    case Some((_, q)) => 1 + LineCount(s, q)
  }

  /** The case of this entity is handled in this space dimension. */
  predicate Handled(ent: EntityKeyword, spaceDim: int)
  {
    ent == Vertices || ent == Tetrahedra || spaceDim == 2 || spaceDim == 3
  }

  /** A section whose count exceeds the lines left ends the load with
      "Bad mesh format.". */
  lemma {:induction false} ShortSectionFails(s: string, p: nat, n: nat, ent: EntityKeyword, spaceDim: int, surface: bool, b: Built)
    requires p <= |s| && LineCount(s, p) < n && Handled(ent, spaceDim)
    ensures ReadRecords(s, Some(p), n, ent, spaceDim, surface, b) == Failed(BadFormat)
    decreases n
  {
    match GetLine(s, p)
    case None =>
      RecordsFail(s, Some(p), n, ent, spaceDim, surface, b);
    case Some((line, q)) =>
      assert LineCount(s, p) == 1 + LineCount(s, q);
      var b' := RecordGrowth(ent, line, spaceDim, surface, b);
      RecordsStep(s, p, n, ent, spaceDim, surface, b, line, q, b');
      ShortSectionFails(s, q, n - 1, ent, spaceDim, surface, b');
  }

  /** b2 is b with n items added to the list of entity ent (triangles to
      the elements in 2D and on a surface, to the boundary in a 3D
      volume), and what b held is kept in place. */
  predicate Grown(ent: EntityKeyword, spaceDim: int, surface: bool, b: Built, b2: Built, n: nat)
  {
    |b2.vertices| == |b.vertices| + (if ent == Vertices then n else 0) &&
    |b2.elements| == |b.elements| + (if ent == Tetrahedra || (ent == Triangles && (spaceDim == 2 || surface)) then n else 0) &&
    |b2.boundary| == |b.boundary| + (if ent == Edges || (ent == Triangles && spaceDim != 2 && !surface) then n else 0) &&
    b.vertices <= b2.vertices && b.elements <= b2.elements && b.boundary <= b2.boundary
  }

  lemma GrownTrans(ent: EntityKeyword, spaceDim: int, surface: bool, b: Built, b1: Built, b2: Built, n: nat)
    requires Grown(ent, spaceDim, surface, b, b1, 1) && Grown(ent, spaceDim, surface, b1, b2, n)
    ensures Grown(ent, spaceDim, surface, b, b2, n + 1)
  {
  }

  /** A section with enough lines adds n items to the list of its entity
      and leaves what was added before in place. */
  lemma {:induction false} SectionGrowth(s: string, p: nat, n: nat, ent: EntityKeyword, spaceDim: int, surface: bool, b: Built)
    requires p <= |s| && LineCount(s, p) >= n && Handled(ent, spaceDim)
    ensures var r := ReadRecords(s, Some(p), n, ent, spaceDim, surface, b);
      r.Done? && Grown(ent, spaceDim, surface, b, r.value, n)
    decreases n
  {
    if n > 0 {
      var q, b' := SectionStep(s, p, n, ent, spaceDim, surface, b);
      SectionGrowth(s, q, n - 1, ent, spaceDim, surface, b');
      GrownTrans(ent, spaceDim, surface, b, b', ReadRecords(s, Some(q), n - 1, ent, spaceDim, surface, b').value, n - 1);
    }
  }

  /** The first record of a section with enough lines: one item is added
      and the rest of the section is read from the next line. */
  lemma SectionStep(s: string, p: nat, n: nat, ent: EntityKeyword, spaceDim: int, surface: bool, b: Built) returns (q: nat, b': Built)
    requires p <= |s| && LineCount(s, p) >= n > 0 && Handled(ent, spaceDim)
    ensures q <= |s| && LineCount(s, q) >= n - 1
    ensures Grown(ent, spaceDim, surface, b, b', 1)
    ensures ReadRecords(s, Some(p), n, ent, spaceDim, surface, b) == ReadRecords(s, Some(q), n - 1, ent, spaceDim, surface, b')
  {
    var (line, q') := GetLine(s, p).value;
    q := q';
    b' := RecordGrowth(ent, line, spaceDim, surface, b);
    RecordsStep(s, p, n, ent, spaceDim, surface, b, line, q, b');
  }

  /** One record read. */
  lemma RecordsStep(s: string, p: nat, n: nat, ent: EntityKeyword, spaceDim: int, surface: bool, b: Built, line: string, q: nat, b': Built)
    requires p <= |s| && n > 0 && GetLine(s, p) == Some((line, q)) && AddRecord(ent, line, spaceDim, surface, b) == Done(b')
    ensures q <= |s| && ReadRecords(s, Some(p), n, ent, spaceDim, surface, b) == ReadRecords(s, Some(q), n - 1, ent, spaceDim, surface, b')
  {
  }

  /** A failed stream or a missing line fails the section. */
  lemma RecordsFail(s: string, p: Option<nat>, n: nat, ent: EntityKeyword, spaceDim: int, surface: bool, b: Built)
    requires n > 0 && (p.None? || p.value > |s| || GetLine(s, p.value).None?)
    ensures ReadRecords(s, p, n, ent, spaceDim, surface, b) == Failed(BadFormat)
  {
  }

  /** A section whose recorded position is -1 (its count line ended the
      stream without a line break) fails the stream when the loader seeks
      to it; the next section of the table that has records then ends the
      load with "Bad mesh format.", even when the first section is empty. */
  lemma SeekFailureFailsNextSection(t: seq<(string, EntityKeyword)>, s: string, st: Scan, surface: bool, b: Built)
    requires |t| >= 2 && t[0].1 in st.pos && t[0].1 in st.count && st.pos[t[0].1] == None && st.count[t[0].1] == 0
    requires t[1].1 in st.pos && t[1].1 in st.count && st.count[t[1].1] > 0
    requires 2 <= st.spaceDim && (t[0].1 == Tetrahedra || t[1].1 == Tetrahedra ==> 3 <= st.spaceDim)
    ensures ReadSections(t, s, st, surface, false, b) == Failed(BadFormat)
  {
    var e0, e1 := t[0].1, t[1].1;
    assert ReadSection(s, None, 0, e0, st.spaceDim, surface, b) == Done(b);
    assert ReadSections(t, s, st, surface, false, b) == ReadSections(t[1..], s, st, surface, true, b);
    RecordsFail(s, None, st.count[e1], e1, st.spaceDim, surface, b);
  }

  /** A record that does not add ends the section with its outcome. */
  lemma RecordsStop(s: string, p: nat, n: nat, ent: EntityKeyword, spaceDim: int, surface: bool, b: Built, line: string, q: nat)
    requires p <= |s| && n > 0 && GetLine(s, p) == Some((line, q)) && !AddRecord(ent, line, spaceDim, surface, b).Done?
    ensures ReadRecords(s, Some(p), n, ent, spaceDim, surface, b) == AddRecord(ent, line, spaceDim, surface, b)
  {
  }

  /** A handled record adds one vertex, element or boundary element. */
  lemma RecordGrowth(ent: EntityKeyword, line: string, spaceDim: int, surface: bool, b: Built) returns (b': Built)
    requires Handled(ent, spaceDim)
    ensures AddRecord(ent, line, spaceDim, surface, b) == Done(b')
    ensures |b'.vertices| == |b.vertices| + (if ent == Vertices then 1 else 0)
    ensures |b'.elements| == |b.elements| + (if ent == Tetrahedra || (ent == Triangles && (spaceDim == 2 || surface)) then 1 else 0)
    ensures |b'.boundary| == |b.boundary| + (if ent == Edges || (ent == Triangles && spaceDim != 2 && !surface) then 1 else 0)
    ensures b.vertices <= b'.vertices && b.elements <= b'.elements && b.boundary <= b'.boundary
  {
    b' := AddRecord(ent, line, spaceDim, surface, b).value;
  }

  /** A triangle record "a b c r" of ints becomes the triangle of
      vertices a-1, b-1, c-1 with reference r. */
  lemma TriangleRecord(a: int, b: int, c: int, ref: int)
    requires FitsInt(a) && FitsInt(b) && FitsInt(c) && FitsInt(ref)
    ensures CellOf(Triangle, RecordText([a, b, c, ref]), 3) == Cell(Triangle, [a - 1, b - 1, c - 1], ref)
  {
    var t := RecordText([a, b, c, ref]);
    ExtractRecord(t, [a, b, c, ref]);
    TriangleRead(t, a, b, c, ref);
  }

  lemma TriangleRead(t: string, a: int, b: int, c: int, ref: int)
    requires ExtractInts(t, 0, 4) == [a, b, c, ref]
    ensures CellOf(Triangle, t, 3) == Cell(Triangle, [a - 1, b - 1, c - 1], ref)
  {
    var v := CellOf(Triangle, t, 3).vertices;
    assert v[0] == a - 1 && v[1] == b - 1 && v[2] == c - 1;
    assert v == [a - 1, b - 1, c - 1];
  }

  /** A tetrahedron record "a b c d r" of ints becomes the tetrahedron
      of vertices a-1, b-1, c-1, d-1 with reference r. */
  lemma TetrahedronRecord(a: int, b: int, c: int, d: int, ref: int)
    requires FitsInt(a) && FitsInt(b) && FitsInt(c) && FitsInt(d) && FitsInt(ref)
    ensures CellOf(Tetrahedron, RecordText([a, b, c, d, ref]), 4) == Cell(Tetrahedron, [a - 1, b - 1, c - 1, d - 1], ref)
  {
    var t := RecordText([a, b, c, d, ref]);
    ExtractRecord(t, [a, b, c, d, ref]);
    TetrahedronRead(t, a, b, c, d, ref);
  }

  lemma TetrahedronRead(t: string, a: int, b: int, c: int, d: int, ref: int)
    requires ExtractInts(t, 0, 5) == [a, b, c, d, ref]
    ensures CellOf(Tetrahedron, t, 4) == Cell(Tetrahedron, [a - 1, b - 1, c - 1, d - 1], ref)
  {
    var v := CellOf(Tetrahedron, t, 4).vertices;
    assert v[0] == a - 1 && v[1] == b - 1 && v[2] == c - 1 && v[3] == d - 1;
    assert v == [a - 1, b - 1, c - 1, d - 1];
  }

  // ----- the MEDIT loader as a procedure -----

  /** The getline loop of the scan. */
  method ScanLines(keys: seq<(string, EntityKeyword)>, s: string, p0: nat) returns (r: Outcome<Scan>)
    requires p0 <= |s|
    ensures r == ScanFrom(keys, s, p0, Scan(0, map[], map[]))
  {
    var p, st := p0, Scan(0, map[], map[]);
    while true
      invariant p <= |s|
      invariant ScanFrom(keys, s, p, st) == ScanFrom(keys, s, p0, Scan(0, map[], map[]))
      decreases |s| - p
    {
      var got := GetLine(s, p);
      if got.None? {
        return Done(st);
      }
      var (raw, q) := got.value;
      var line := Trim(raw);
      if line == [] {
        p := q;
        continue;
      }
      var (kw, e) := Keyword(line);
      if kw == DimensionKey {
        var d := StoredInt(line, e);
        if d < 2 || d > 3 {
          return Failed(InvalidDimension + IntText(d));
        }
        st := st.(spaceDim := d);
        p := q;
      } else {
        var found := Find(keys, kw);
        if found.None? {
          p := q;
        } else {
          var (st', next) := Record(s, q, st, found.value);
          st := st';
          if next.None? {
            return Done(st);
          }
          p := next.value;
        }
      }
    }
  }

  /** The switch on the section's entity for one record line. */
  method ReadRecord(ent: EntityKeyword, line: string, spaceDim: int, surface: bool, b: Built) returns (r: Outcome<Built>)
    ensures r == AddRecord(ent, line, spaceDim, surface, b)
  {
    match ent {
      case Vertices =>
        r := Done(b.(vertices := b.vertices + [ExtractReals(line, 0, if spaceDim < 0 then 0 else spaceDim)]));
      case Triangles =>
        if spaceDim == 2 || (spaceDim == 3 && surface) {
          r := Done(b.(elements := b.elements + [CellOf(Triangle, line, 3)]));
        } else if spaceDim == 3 {
          r := Done(b.(boundary := b.boundary + [CellOf(Triangle, line, 3)]));
        } else {
          r := Raised(UnhandledCase);
        }
      case Tetrahedra =>
        r := Done(b.(elements := b.elements + [CellOf(Tetrahedron, line, 4)]));
      case Edges =>
        if spaceDim == 2 || spaceDim == 3 {
          r := Done(b.(boundary := b.boundary + [CellOf(Segment, line, 2)]));
        } else {
          r := Raised(UnhandledCase);
        }
    }
  }

  /** The loop that reads the n records of one section. */
  method ReadRecordLines(s: string, p0: Option<nat>, n: nat, ent: EntityKeyword, spaceDim: int, surface: bool, b0: Built)
    returns (r: Outcome<Built>)
    ensures r == ReadRecords(s, p0, n, ent, spaceDim, surface, b0)
  {
    ghost var whole := ReadRecords(s, p0, n, ent, spaceDim, surface, b0);
    var p, b, k := p0, b0, n;
    while k > 0
      invariant ReadRecords(s, p, k, ent, spaceDim, surface, b) == whole
    {
      if p.None? || p.value > |s| {
        RecordsFail(s, p, k, ent, spaceDim, surface, b);
        return Failed(BadFormat);
      }
      var got := GetLine(s, p.value);
      if got.None? {
        RecordsFail(s, p, k, ent, spaceDim, surface, b);
        return Failed(BadFormat);
      }
      var (line, q) := got.value;
      var added := ReadRecord(ent, line, spaceDim, surface, b);
      if !added.Done? {
        RecordsStop(s, p.value, k, ent, spaceDim, surface, b, line, q);
        return added;
      }
      RecordsStep(s, p.value, k, ent, spaceDim, surface, b, line, q, added.value);
      p, b, k := Some(q), added.value, k - 1;
    }
    return Done(b);
  }

  /** The loop over the keyword table that reads the sections. */
  method ReadAllSections(keys: seq<(string, EntityKeyword)>, s: string, st: Scan, surface: bool) returns (r: Outcome<Built>)
    ensures r == ReadSections(keys, s, st, surface, false, Built([], [], []))
  {
    var failed, b := false, Built([], [], []);
    for k := 0 to |keys|
      invariant ReadSections(keys[k..], s, st, surface, failed, b) == ReadSections(keys, s, st, surface, false, Built([], [], []))
    {
      assert keys[k..][1..] == keys[k + 1..];
      var ent := keys[k].1;
      if ent in st.pos {
        failed := failed || st.pos[ent].None?;
        if ent !in st.count {
          return Failed(BadFormatting);
        }
        if (ent == Tetrahedra && st.spaceDim < 3) || ((ent == Triangles || ent == Edges) && st.spaceDim < 2) {
          return Aborted;
        }
        var section := ReadRecordLines(s, if failed then None else st.pos[ent], st.count[ent], ent, st.spaceDim, surface, b);
        if !section.Done? {
          return section;
        }
        b := section.value;
      }
    }
    return Done(b);
  }

  /** MeshLoader<MEDIT>::load. */
  method LoadMeditStream(headers: map<string, MeshFormat>, keys: seq<(string, EntityKeyword)>, s: string) returns (r: Outcome<LoadedMesh>)
    ensures r == LoadMedit(headers, keys, s)
  {
    var (fmt, p) := GetMeshFormat(headers, s, 0, false);
    if fmt.None? {
      return Raised(UnrecognizedFormat);
    }
    if fmt.value != MEDIT {
      return Failed(CannotMedit);
    }
    var scanned := ScanLines(keys, s, p);
    if scanned.Failed? {
      return Failed(scanned.error);
    }
    var st := scanned.value;
    var kind := InferKind(st);
    if !kind.Done? {
      return Raised(kind.message);
    }
    var built := ReadAllSections(keys, s, st, kind.value.surface);
    match built {
      case Done(b) => return Done(LoadedMesh(kind.value.sizes, b.vertices, b.elements, b.boundary));
      case Failed(e) => return Failed(e);
      case Raised(m) => return Raised(m);
      case Aborted => return Aborted;
    }
  }
}
