/** The mesh file formats and their headers, the detection of a stream's
    format from its first line, and the MEDIT keyword tables. */
module MeshFormats {
  import opened Wrappers
  import opened Text

  datatype MeshFormat = MFEM | GMSH | MEDIT

  const MfemV10: string := "MFEM mesh v1.0"
  const MfemV12: string := "MFEM mesh v1.2"
  const MfemNcV10: string := "MFEM NC mesh v1.0"
  const MfemV11: string := "MFEM mesh v1.1"
  /** The key the header table files Gmsh under. */
  const GmshKeyAsWritten: string := "$IO::MeshFormat"
  /** The first line of a Gmsh file. */
  const GmshHeader: string := "$MeshFormat"
  const MeditV1: string := "MeshVersionFormatted 1"
  const MeditV2: string := "MeshVersionFormatted 2"

  /** The header table with gmsh as the Gmsh key. */
  function HeadersWith(gmsh: string): (h: map<string, MeshFormat>)
    requires gmsh !in {MfemV10, MfemV12, MfemNcV10, MfemV11, MeditV1, MeditV2}
    ensures h.Keys == {MfemV10, MfemV12, MfemNcV10, MfemV11, gmsh, MeditV1, MeditV2}
    ensures forall k :: k in h ==> (h[k] == MFEM <==> k in {MfemV10, MfemV12, MfemNcV10, MfemV11})
    ensures forall k :: k in h ==> (h[k] == GMSH <==> k == gmsh)
    ensures forall k :: k in h ==> (h[k] == MEDIT <==> k in {MeditV1, MeditV2})
  {
    map[MfemV10 := MFEM, MfemV12 := MFEM, MfemNcV10 := MFEM, MfemV11 := MFEM,
        gmsh := GMSH, MeditV1 := MEDIT, MeditV2 := MEDIT]
  }

  /** getMeshFileHeaders as written: Gmsh is filed under "$IO::MeshFormat". */
  function HeadersAsWritten(): (h: map<string, MeshFormat>)
    ensures GmshHeader !in h && GmshKeyAsWritten in h
  {
    HeadersWith(GmshKeyAsWritten)
  }

  /** getMeshFileHeaders with Gmsh filed under its first line. */
  function Headers(): (h: map<string, MeshFormat>)
    ensures GmshHeader in h && h[GmshHeader] == GMSH
  {
    HeadersWith(GmshHeader)
  }

  /** A line without its one trailing '\r', if it has one. */
  function StripCR(line: string): (r: string)
    ensures line != [] && line[|line| - 1] == '\r' ==> r + "\r" == line
    ensures !(line != [] && line[|line| - 1] == '\r') ==> r == line
  {
    if line != [] && line[|line| - 1] == '\r' then line[..|line| - 1] else line
  }

  /** The format named by a header line, if any. */
  function Lookup(headers: map<string, MeshFormat>, key: string): (r: Option<MeshFormat>)
    ensures r.Some? <==> key in headers
    ensures r.Some? ==> r.value == headers[key]
  {
    if key in headers then Some(headers[key]) else None
  }

  /** getMeshFormat on the stream s at position p: the white space is
      skipped, the next line is read (an empty one at the end of the
      stream) and one trailing '\r' is removed before the line is looked
      up. The new position is the start of the stream when seekBeg,
      otherwise the position after the line. */
  function GetMeshFormat(headers: map<string, MeshFormat>, s: string, p: nat, seekBeg: bool): (r: (Option<MeshFormat>, nat))
    requires p <= |s|
    ensures r.1 <= |s|
    ensures seekBeg ==> r.1 == 0
    ensures !seekBeg ==> p <= r.1
  {
    var q := SkipSpace(s, p);
    match GetLine(s, q)
    case None => (Lookup(headers, StripCR([])), if seekBeg then 0 else |s|)
    case Some((line, next)) => (Lookup(headers, StripCR(line)), if seekBeg then 0 else next)
  }

  /** The format is the one of the first line that is not blank, without
      its trailing '\r'; the lines before it only hold white space. */
  lemma FormatOfFirstLine(headers: map<string, MeshFormat>, pre: string, line: string, rest: string, seekBeg: bool)
    requires AllSpaces(pre)
    requires line != [] && !IsSpace(line[0]) && '\n' !in line
    ensures GetMeshFormat(headers, pre + line + "\n" + rest, 0, seekBeg).0 == Lookup(headers, StripCR(line))
    ensures !seekBeg ==> GetMeshFormat(headers, pre + line + "\n" + rest, 0, seekBeg).1 == |pre| + |line| + 1
  {
    var s := pre + line + "\n" + rest;
    forall k | 0 <= k < |pre| ensures IsSpace(s[k]) {
      assert s[k] == pre[k];
    }
    assert s[|pre|] == line[0];
    SkipSpaceUnique(s, 0, |pre|);
    GetLineOf(pre, line, rest);
  }

  /** A stream of white space only has no format. */
  lemma BlankHasNoFormat(headers: map<string, MeshFormat>, s: string, seekBeg: bool)
    requires AllSpaces(s)
    requires [] !in headers
    ensures GetMeshFormat(headers, s, 0, seekBeg).0 == None
  {
    SkipSpaceUnique(s, 0, |s|);
  }

  /** No header of the table is empty, starts with white space or holds a
      line break. */
  lemma HeaderKeysArePlainLines(gmsh: string)
    requires gmsh !in {MfemV10, MfemV12, MfemNcV10, MfemV11, MeditV1, MeditV2}
    requires gmsh != [] && !IsSpace(gmsh[0]) && '\n' !in gmsh && gmsh[|gmsh| - 1] != '\r'
    ensures forall k :: k in HeadersWith(gmsh) ==>
      k != [] && !IsSpace(k[0]) && '\n' !in k && k[|k| - 1] != '\r'
  {
    assert MfemV10[0] == 'M' && '\n' !in MfemV10 && MfemV10[|MfemV10| - 1] == '0';
    assert MfemV12[0] == 'M' && '\n' !in MfemV12 && MfemV12[|MfemV12| - 1] == '2';
    assert MfemNcV10[0] == 'M' && '\n' !in MfemNcV10 && MfemNcV10[|MfemNcV10| - 1] == '0';
    assert MfemV11[0] == 'M' && '\n' !in MfemV11 && MfemV11[|MfemV11| - 1] == '1';
    assert MeditV1[0] == 'M' && '\n' !in MeditV1 && MeditV1[|MeditV1| - 1] == '1';
    assert MeditV2[0] == 'M' && '\n' !in MeditV2 && MeditV2[|MeditV2| - 1] == '2';
  }

  /** A stream whose first non-blank line is a header of the table has the
      format the table gives it, with a Unix or a DOS line end. */
  lemma HeaderDetected(gmsh: string, pre: string, key: string, eol: string, rest: string, seekBeg: bool)
    requires gmsh !in {MfemV10, MfemV12, MfemNcV10, MfemV11, MeditV1, MeditV2}
    requires gmsh != [] && !IsSpace(gmsh[0]) && '\n' !in gmsh && gmsh[|gmsh| - 1] != '\r'
    requires key in HeadersWith(gmsh) && AllSpaces(pre)
    requires eol == "\n" || eol == "\r\n"
    ensures GetMeshFormat(HeadersWith(gmsh), pre + key + eol + rest, 0, seekBeg).0 == Some(HeadersWith(gmsh)[key])
  {
    HeaderKeysArePlainLines(gmsh);
    LineDetected(HeadersWith(gmsh), pre, key, eol, rest, seekBeg);
  }

  /** The same for any key of any table that is a plain line. */
  lemma LineDetected(headers: map<string, MeshFormat>, pre: string, key: string, eol: string, rest: string, seekBeg: bool)
    requires key in headers && AllSpaces(pre)
    requires key != [] && !IsSpace(key[0]) && '\n' !in key && key[|key| - 1] != '\r'
    requires eol == "\n" || eol == "\r\n"
    ensures GetMeshFormat(headers, pre + key + eol + rest, 0, seekBeg).0 == Some(headers[key])
  {
    if eol == "\n" {
      FormatOfFirstLine(headers, pre, key, rest, seekBeg);
    } else {
      var line := key + "\r";
      assert pre + key + eol + rest == pre + line + "\n" + rest;
      assert StripCR(line) == key;
      assert '\n' !in line && line[0] == key[0];
      FormatOfFirstLine(headers, pre, line, rest, seekBeg);
    }
  }

  /** As written, a stream that starts with the Gmsh header line
      "$MeshFormat" has no recognised format. */
  lemma GmshHeaderUnrecognisedAsWritten(rest: string, seekBeg: bool)
    ensures GetMeshFormat(HeadersAsWritten(), GmshHeader + "\n" + rest, 0, seekBeg).0 == None
  {
    assert GmshHeader[0] == '$' && '\n' !in GmshHeader && GmshHeader[|GmshHeader| - 1] == 't';
    assert [] + GmshHeader + "\n" + rest == GmshHeader + "\n" + rest;
    FormatOfFirstLine(HeadersAsWritten(), [], GmshHeader, rest, seekBeg);
  }

  /** With Gmsh filed under its header line, the same stream is Gmsh. */
  lemma GmshHeaderRecognised(rest: string, seekBeg: bool)
    ensures GetMeshFormat(Headers(), GmshHeader + "\n" + rest, 0, seekBeg).0 == Some(GMSH)
  {
    assert GmshHeader[0] == '$' && '\n' !in GmshHeader && GmshHeader[|GmshHeader| - 1] == 't';
    assert [] + GmshHeader + "\n" + rest == GmshHeader + "\n" + rest;
    HeaderDetected(GmshHeader, [], GmshHeader, "\n", rest, seekBeg);
  }

  // ----- MEDIT keywords -----

  datatype SolKeyword = SolAtVertices | SolAtEdges | SolAtTriangles | SolAtQuadrilaterals
                      | SolAtTetrahedra | SolAtPentahedra | SolAtHexahedra

  datatype EntityKeyword = Vertices | Triangles | Tetrahedra | Edges

  const VerticesKey: string := "Vertices"
  const EdgesKey: string := "Edges"
  const TrianglesKey: string := "Triangles"
  /** The key the entity table files tetrahedra under. */
  const TetrahedraKeyAsWritten: string := "SolAtTetrahedra"
  /** The MEDIT keyword of a tetrahedra section. */
  const TetrahedraKey: string := "Tetrahedra"

  /** Lexicographic order of strings (std::less on std::string). */
  predicate Less(a: string, b: string)
  {
    (a != [] && b != [] && (a[0] < b[0] || (a[0] == b[0] && Less(a[1..], b[1..])))) || (a == [] && b != [])
  }

  /** A table of a bimap in the order it is iterated: by increasing key. */
  predicate Ordered<K>(t: seq<(string, K)>)
  {
    forall i :: 0 <= i < |t| - 1 ==> Less(t[i].0, t[i + 1].0)
  }

  /** A table pairs each key with one value and each value with one key. */
  predicate Bijective<K(==)>(t: seq<(string, K)>)
  {
    forall i, j :: 0 <= i < j < |t| ==> t[i].0 != t[j].0 && t[i].1 != t[j].1
  }

  /** The value a key is paired with in a table (bimap.left.at). */
  function Find<K(==)>(t: seq<(string, K)>, key: string): (r: Option<K>)
    ensures r.None? <==> forall i :: 0 <= i < |t| ==> t[i].0 != key
    ensures r.Some? ==> exists i :: 0 <= i < |t| && t[i] == (key, r.value)
  {
    if t == [] then None
    else if t[0].0 == key then
      assert t[0] == (key, t[0].1);
      Some(t[0].1)
    else
      var r := Find(t[1..], key);
      if r.Some? then
        var i :| 0 <= i < |t[1..]| && t[1..][i] == (key, r.value);
        assert t[i + 1] == (key, r.value);
        r
      else r
  }

  /** In a table without repeated keys the value found is the one paired
      with the key. */
  lemma {:induction false} FindAt<K>(t: seq<(string, K)>, i: nat)
    requires i < |t| && Bijective(t)
    ensures Find(t, t[i].0) == Some(t[i].1)
  {
    if i > 0 {
      assert Bijective(t[1..]) by {
        forall a, b | 0 <= a < b < |t[1..]| ensures t[1..][a].0 != t[1..][b].0 && t[1..][a].1 != t[1..][b].1 {
          assert t[1..][a] == t[a + 1] && t[1..][b] == t[b + 1];
        }
      }
      assert t[0].0 != t[i].0;
      FindAt(t[1..], i - 1);
    }
  }

  /** getSolKeywordMap, in the order of its keys. */
  function SolKeywords(): (t: seq<(string, SolKeyword)>)
    ensures |t| == 7 && Bijective(t)
  {
    [("SolAtEdges", SolAtEdges), ("SolAtHexahedra", SolAtHexahedra),
     ("SolAtPentahedra", SolAtPentahedra), ("SolAtQuadrilaterals", SolAtQuadrilaterals),
     ("SolAtTetrahedra", SolAtTetrahedra), ("SolAtTriangles", SolAtTriangles),
     ("SolAtVertices", SolAtVertices)]
  }

  /** The entity table with tet as the tetrahedra key, in key order. */
  function EntityKeywordsWith(tet: string): (t: seq<(string, EntityKeyword)>)
    ensures |t| == 4
  {
    [(EdgesKey, Edges), (tet, Tetrahedra), (TrianglesKey, Triangles), (VerticesKey, Vertices)]
  }

  /** getEntityKeywordMap as written: tetrahedra are filed under
      "SolAtTetrahedra". */
  function EntityKeywordsAsWritten(): (t: seq<(string, EntityKeyword)>)
    ensures |t| == 4 && Ordered(t) && Bijective(t)
    ensures forall i :: 0 <= i < |t| ==> t[i].0 != TetrahedraKey
  {
    assert Less(EdgesKey, TetrahedraKeyAsWritten) && Less(TetrahedraKeyAsWritten, TrianglesKey) && Less(TrianglesKey, VerticesKey);
    EntityKeywordsWith(TetrahedraKeyAsWritten)
  }

  /** getEntityKeywordMap with tetrahedra filed under their keyword. */
  function EntityKeywords(): (t: seq<(string, EntityKeyword)>)
    ensures |t| == 4 && Ordered(t) && Bijective(t)
    ensures t[1] == (TetrahedraKey, Tetrahedra)
  {
    assert Less(EdgesKey, TetrahedraKey) && Less(TetrahedraKey, TrianglesKey) && Less(TrianglesKey, VerticesKey);
    EntityKeywordsWith(TetrahedraKey)
  }

  /** Each table names every keyword exactly once. */
  lemma EntityTablesComplete(e: EntityKeyword)
    ensures exists i :: 0 <= i < 4 && EntityKeywords()[i].1 == e
    ensures exists i :: 0 <= i < 4 && EntityKeywordsAsWritten()[i].1 == e
  {
    var i := match e case Edges => 0 case Tetrahedra => 1 case Triangles => 2 case Vertices => 3;
    assert EntityKeywords()[i].1 == e && EntityKeywordsAsWritten()[i].1 == e;
  }
}
