/** The Redis command argument lists the retrieval demo builds: the
    `FT.SEARCH` KNN query (`SearchTopK`), the `FT.INFO` probe and `FT.CREATE`
    schema (`EnsureIndexExists`), the `HSET` of one document (`UpsertDoc`),
    and the context string handed to the chat model. */
module RedisCommands {
  import opened Wrappers
  import opened VectorCodec
  import opened Decimal
  import opened Text
  import SearchParser

  const IndexName := "idx:documents"
  const EmbeddingDim := 1536
  const KeyPrefix := "doc:"
  const TextField := "text_field"
  const VectorField := "vector_field"
  const ScoreAlias := "score"
  const BlobParam := "BLOB"
  const ContextSeparator := "\n---\n"

  /** A command argument: a text token or a binary value. */
  datatype Arg = Token(s: string) | Blob(bytes: seq<bv8>)

  datatype Command = Command(name: string, args: seq<Arg>)

  /** C#'s `int`. */
  predicate IsInt32(k: int) {
    -0x8000_0000 <= k < 0x8000_0000
  }

  // ---------------------------------------------------------------------------
  // Reading an argument list with the subset of the server's grammar these lists use

  function TokenAt(args: seq<Arg>, i: nat): Option<string> {
    if i < |args| && args[i].Token? then Some(args[i].s) else None
  }

  function IntAt(args: seq<Arg>, i: nat): Option<int> {
    match TokenAt(args, i)
    case None => None
    case Some(t) => ParseInt(t)
  }

  /** The name/value arguments `args[lo..hi]`; every name must be a text token. */
  function ReadPairs(args: seq<Arg>, lo: nat, hi: nat): (r: Option<seq<(string, Arg)>>)
    requires lo <= hi <= |args|
    ensures r.Some? ==> 2 * |r.value| == hi - lo
    decreases hi - lo
  {
    if lo == hi then Some([])
    else if lo + 1 == hi || !args[lo].Token? then None
    else match ReadPairs(args, lo + 2, hi)
      case None => None
      case Some(rest) => Some([(args[lo].s, args[lo + 1])] + rest)
  }

  /** The text tokens `args[lo..hi]`. */
  function ReadTokens(args: seq<Arg>, lo: nat, hi: nat): (r: Option<seq<string>>)
    requires lo <= hi <= |args|
    ensures r.Some? ==> |r.value| == hi - lo
    ensures r.Some? ==> forall i :: lo <= i < hi ==> args[i] == Token(r.value[i - lo])
    decreases hi - lo
  {
    if lo == hi then Some([])
    else if !args[lo].Token? then None
    else match ReadTokens(args, lo + 1, hi)
      case None => None
      case Some(rest) => Some([args[lo].s] + rest)
  }

  /** The value bound to a name in a list of pairs. */
  function Lookup<T>(pairs: seq<(string, T)>, name: string): Option<T> {
    if |pairs| == 0 then None
    else if pairs[0].0 == name then Some(pairs[0].1)
    else Lookup(pairs[1..], name)
  }

  // ---------------------------------------------------------------------------
  // FT.SEARCH

  datatype SortOrder = Asc | Desc

  /** An `FT.SEARCH` request as the server reads it. */
  datatype SearchRequest = SearchRequest(
    index: string,
    query: string,
    params: seq<(string, Arg)>,
    dialect: Option<int>,
    fields: Option<seq<string>>,
    sortBy: Option<(string, SortOrder)>,
    limit: Option<(int, int)>)

  /** Reads `FT.SEARCH index query [PARAMS n pairs] [DIALECT d]
      [RETURN n fields] [SORTBY field [ASC|DESC]] [LIMIT offset count]`. */
  function ReadSearch(args: seq<Arg>): Option<SearchRequest> {
    if |args| < 2 || !args[0].Token? || !args[1].Token? then None
    else ReadSearchOptions(args, 2, SearchRequest(args[0].s, args[1].s, [], None, None, None, None))
  }

  function ReadSearchOptions(args: seq<Arg>, i: nat, req: SearchRequest): Option<SearchRequest>
    decreases |args| - i
  {
    if i >= |args| then Some(req)
    else match TokenAt(args, i)
      case None => None
      case Some(kw) =>
        if kw == "PARAMS" then
          match IntAt(args, i + 1)
          case None => None
          case Some(n) =>
            if n < 0 || i + 2 + n > |args| then None
            else match ReadPairs(args, i + 2, i + 2 + n)
              case None => None
              case Some(ps) => ReadSearchOptions(args, i + 2 + n, req.(params := ps))
        else if kw == "DIALECT" then
          match IntAt(args, i + 1)
          case None => None
          case Some(d) => ReadSearchOptions(args, i + 2, req.(dialect := Some(d)))
        else if kw == "RETURN" then
          match IntAt(args, i + 1)
          case None => None
          case Some(n) =>
            if n < 0 || i + 2 + n > |args| then None
            else match ReadTokens(args, i + 2, i + 2 + n)
              case None => None
              case Some(fs) => ReadSearchOptions(args, i + 2 + n, req.(fields := Some(fs)))
        else if kw == "SORTBY" then
          match TokenAt(args, i + 1)
          case None => None
          case Some(f) =>
            if TokenAt(args, i + 2) == Some("ASC") then ReadSearchOptions(args, i + 3, req.(sortBy := Some((f, Asc))))
            else if TokenAt(args, i + 2) == Some("DESC") then ReadSearchOptions(args, i + 3, req.(sortBy := Some((f, Desc))))
            else ReadSearchOptions(args, i + 2, req.(sortBy := Some((f, Asc))))
        else if kw == "LIMIT" then
          match (IntAt(args, i + 1), IntAt(args, i + 2))
          case (Some(o), Some(n)) => ReadSearchOptions(args, i + 3, req.(limit := Some((o, n))))
          case _ => None
        else None
  }

  const KnnPrefix := "*=>[KNN "
  const KnnSuffix := " @" + VectorField + " $" + BlobParam + " AS " + ScoreAlias + "]"

  /** The neighbour count of a KNN clause `*=>[KNN <k> @vector_field $BLOB AS score]`. */
  function KnnCountOf(clause: string): Option<int> {
    if |clause| >= |KnnPrefix| + |KnnSuffix|
      && clause[..|KnnPrefix|] == KnnPrefix
      && clause[|clause| - |KnnSuffix|..] == KnnSuffix
    then ParseInt(clause[|KnnPrefix| .. |clause| - |KnnSuffix|])
    else None
  }

  function KnnClause(k: int): string {
    KnnPrefix + IntToString(k) + KnnSuffix
  }

  /** The arguments `SearchTopK` passes to `FT.SEARCH`. */
  function SearchArgs(queryVec: seq<Float32>, k: int, hostIsLittleEndian: bool): (args: seq<Arg>)
    requires IsInt32(k)
    ensures |args| == 18
  {
    SearchArgsOf(KnnClause(k), Encode(queryVec), IntToString(k))
  }

  lemma KnnClauseCount(k: int)
    ensures KnnCountOf(KnnClause(k)) == Some(k)
  {
    var c := KnnClause(k);
    assert c[..|KnnPrefix|] == KnnPrefix;
    assert c[|c| - |KnnSuffix|..] == KnnSuffix;
    assert c[|KnnPrefix| .. |c| - |KnnSuffix|] == IntToString(k);
    IntToStringRoundTrip(k);
  }

  /** The argument list of `SearchArgs` with the KNN clause, the vector
      bytes and the count text left as parameters. */
  function SearchArgsOf(clause: string, blob: seq<bv8>, count: string): seq<Arg> {
    [Token(IndexName), Token(clause)]
      + [Token("PARAMS"), Token("2"), Token(BlobParam), Blob(blob)]
      + [Token("DIALECT"), Token("2")]
      + [Token("RETURN"), Token("2"), Token(TextField), Token(ScoreAlias)]
      + [Token("SORTBY"), Token(ScoreAlias), Token("ASC")]
      + [Token("LIMIT"), Token("0"), Token(count)]
  }

  lemma ReadSearchLimit(args: seq<Arg>, count: string, k: int, req: SearchRequest)
    requires |args| == 18 && args[15] == Token("LIMIT") && args[16] == Token("0") && args[17] == Token(count)
    requires ParseInt(count) == Some(k)
    ensures ReadSearchOptions(args, 15, req) == Some(req.(limit := Some((0, k))))
  {
    assert ParseInt("0") == Some(0);
    assert ReadSearchOptions(args, 18, req.(limit := Some((0, k)))) == Some(req.(limit := Some((0, k))));
  }

  lemma ReadSearchSortBy(args: seq<Arg>, req: SearchRequest)
    requires |args| == 18 && args[12] == Token("SORTBY") && args[13] == Token(ScoreAlias) && args[14] == Token("ASC")
    ensures ReadSearchOptions(args, 12, req) == ReadSearchOptions(args, 15, req.(sortBy := Some((ScoreAlias, Asc))))
  {
  }

  lemma ReadSearchReturn(args: seq<Arg>, req: SearchRequest)
    requires |args| == 18 && args[8] == Token("RETURN") && args[9] == Token("2")
    requires args[10] == Token(TextField) && args[11] == Token(ScoreAlias)
    ensures ReadSearchOptions(args, 8, req) == ReadSearchOptions(args, 12, req.(fields := Some([TextField, ScoreAlias])))
  {
    assert ParseInt("2") == Some(2);
    assert ReadTokens(args, 12, 12) == Some([]);
    assert [ScoreAlias] + [] == [ScoreAlias];
    assert ReadTokens(args, 11, 12) == Some([ScoreAlias]);
    assert [TextField] + [ScoreAlias] == [TextField, ScoreAlias];
    assert ReadTokens(args, 10, 12) == Some([TextField, ScoreAlias]);
  }

  lemma ReadSearchDialect(args: seq<Arg>, req: SearchRequest)
    requires |args| == 18 && args[6] == Token("DIALECT") && args[7] == Token("2")
    ensures ReadSearchOptions(args, 6, req) == ReadSearchOptions(args, 8, req.(dialect := Some(2)))
  {
    assert ParseInt("2") == Some(2);
  }

  lemma ReadSearchParams(args: seq<Arg>, blob: seq<bv8>, req: SearchRequest)
    requires |args| == 18 && args[2] == Token("PARAMS") && args[3] == Token("2")
    requires args[4] == Token(BlobParam) && args[5] == Blob(blob)
    ensures ReadSearchOptions(args, 2, req) == ReadSearchOptions(args, 6, req.(params := [(BlobParam, Blob(blob))]))
  {
    assert ParseInt("2") == Some(2);
    assert ReadPairs(args, 6, 6) == Some([]);
    assert [(BlobParam, Blob(blob))] + [] == [(BlobParam, Blob(blob))];
    assert ReadPairs(args, 4, 6) == Some([(BlobParam, Blob(blob))]);
  }

  lemma SearchArgsTokens(clause: string, blob: seq<bv8>, count: string)
    ensures var args := SearchArgsOf(clause, blob, count);
      && |args| == 18
      && args[2] == Token("PARAMS") && args[3] == Token("2") && args[4] == Token(BlobParam) && args[5] == Blob(blob)
      && args[6] == Token("DIALECT") && args[7] == Token("2")
      && args[8] == Token("RETURN") && args[9] == Token("2") && args[10] == Token(TextField) && args[11] == Token(ScoreAlias)
      && args[12] == Token("SORTBY") && args[13] == Token(ScoreAlias) && args[14] == Token("ASC")
      && args[15] == Token("LIMIT") && args[16] == Token("0") && args[17] == Token(count)
  {
  }

  lemma ReadSearchArgsOf(clause: string, blob: seq<bv8>, count: string, k: int)
    requires ParseInt(count) == Some(k)
    ensures ReadSearch(SearchArgsOf(clause, blob, count)) == Some(SearchRequest(
      IndexName, clause, [(BlobParam, Blob(blob))], Some(2),
      Some([TextField, ScoreAlias]), Some((ScoreAlias, Asc)), Some((0, k))))
  {
    var args := SearchArgsOf(clause, blob, count);
    var r0 := SearchRequest(IndexName, clause, [], None, None, None, None);
    var r1 := r0.(params := [(BlobParam, Blob(blob))]);
    var r2 := r1.(dialect := Some(2));
    var r3 := r2.(fields := Some([TextField, ScoreAlias]));
    var r4 := r3.(sortBy := Some((ScoreAlias, Asc)));
    var r5 := r4.(limit := Some((0, k)));
    SearchArgsTokens(clause, blob, count);
    assert ReadSearchOptions(args, 15, r4) == Some(r5) by { ReadSearchLimit(args, count, k, r4); }
    assert ReadSearchOptions(args, 12, r3) == Some(r5) by { ReadSearchSortBy(args, r3); }
    assert ReadSearchOptions(args, 8, r2) == Some(r5) by { ReadSearchReturn(args, r2); }
    assert ReadSearchOptions(args, 6, r1) == Some(r5) by { ReadSearchDialect(args, r1); }
    assert ReadSearchOptions(args, 2, r0) == Some(r5) by { ReadSearchParams(args, blob, r0); }
  }

  lemma ReadSearchArgs(queryVec: seq<Float32>, k: int, hostIsLittleEndian: bool)
    requires IsInt32(k)
    ensures ReadSearch(SearchArgs(queryVec, k, hostIsLittleEndian)) == Some(SearchRequest(
      IndexName, KnnClause(k), [(BlobParam, Blob(Encode(queryVec)))], Some(2),
      Some([TextField, ScoreAlias]), Some((ScoreAlias, Asc)), Some((0, k))))
  {
    IntToStringRoundTrip(k);
    ReadSearchArgsOf(KnnClause(k), Encode(queryVec), IntToString(k), k);
  }

  /** What the server reads from the query: the KNN clause and `LIMIT` carry
      the same `k`; the `BLOB` parameter holds the encoded query vector; only
      the text field and the score alias are returned, never the vector
      field; results are sorted by that alias, ascending, under dialect 2. */
  predicate SearchesTopK(r: SearchRequest, queryVec: seq<Float32>, k: int) {
    && r.index == IndexName
    && KnnCountOf(r.query) == Some(k)
    && r.limit == Some((0, k))
    && Lookup(r.params, BlobParam) == Some(Blob(Encode(queryVec)))
    && r.fields == Some([TextField, ScoreAlias])
    && VectorField !in r.fields.value
    && r.sortBy == Some((ScoreAlias, Asc))
    && r.dialect == Some(2)
  }

  lemma SearchArgsMeaning(queryVec: seq<Float32>, k: int, hostIsLittleEndian: bool)
    requires IsInt32(k)
    ensures ReadSearch(SearchArgs(queryVec, k, hostIsLittleEndian)).Some?
    ensures SearchesTopK(ReadSearch(SearchArgs(queryVec, k, hostIsLittleEndian)).value, queryVec, k)
  {
    ReadSearchArgs(queryVec, k, hostIsLittleEndian);
    KnnClauseCount(k);
  }

  // ---------------------------------------------------------------------------
  // FT.INFO / FT.CREATE

  /** A schema field as the server reads it. */
  datatype FieldSpec =
    | TextFieldSpec(name: string)
    | VectorFieldSpec(name: string, algorithm: string, attributes: seq<(string, Arg)>)

  datatype IndexSpec = IndexSpec(name: string, on: string, prefixes: seq<string>, schema: seq<FieldSpec>)

  /** Reads `FT.CREATE index ON type PREFIX n prefixes SCHEMA fields`, where a
      vector field is `name VECTOR algorithm count attributes`. */
  function ReadCreate(args: seq<Arg>): Option<IndexSpec> {
    if |args| < 5 || !args[0].Token? || args[1] != Token("ON") || !args[2].Token? || args[3] != Token("PREFIX") then None
    else match IntAt(args, 4)
      case None => None
      case Some(n) =>
        if n < 0 || 5 + n >= |args| || args[5 + n] != Token("SCHEMA") then None
        else match (ReadTokens(args, 5, 5 + n), ReadSchema(args, 6 + n))
          case (Some(ps), Some(fs)) => Some(IndexSpec(args[0].s, args[2].s, ps, fs))
          case _ => None
  }

  function ReadSchema(args: seq<Arg>, i: nat): Option<seq<FieldSpec>>
    decreases |args| - i
  {
    if i >= |args| then Some([])
    else match (TokenAt(args, i), TokenAt(args, i + 1))
      case (Some(name), Some("TEXT")) =>
        (match ReadSchema(args, i + 2)
         case None => None
         case Some(rest) => Some([TextFieldSpec(name)] + rest))
      case (Some(name), Some("VECTOR")) =>
        (match (TokenAt(args, i + 2), IntAt(args, i + 3))
         case (Some(alg), Some(n)) =>
           if n < 0 || i + 4 + n > |args| then None
           else (match (ReadPairs(args, i + 4, i + 4 + n), ReadSchema(args, i + 4 + n))
             case (Some(attrs), Some(rest)) => Some([VectorFieldSpec(name, alg, attrs)] + rest)
             case _ => None)
         case _ => None)
      case _ => None
  }

  /** `idx:documents ON HASH PREFIX 1 doc: SCHEMA` */
  function IndexHead(): seq<Arg> {
    [ Token(IndexName), Token("ON"), Token("HASH"), Token("PREFIX"), Token("1"), Token(KeyPrefix), Token("SCHEMA") ]
  }

  /** `text_field TEXT` */
  function TextSchema(): seq<Arg> {
    [ Token(TextField), Token("TEXT") ]
  }

  /** `vector_field VECTOR HNSW` */
  function VectorHead(): seq<Arg> {
    [ Token(VectorField), Token("VECTOR"), Token("HNSW") ]
  }

  /** The ten attribute tokens of the vector field. */
  function AttributeTokens(): seq<Arg> {
    [ Token("TYPE"), Token("FLOAT32"),
      Token("DIM"), Token(IntToString(EmbeddingDim)),
      Token("DISTANCE_METRIC"), Token("COSINE"),
      Token("M"), Token("16"), Token("EF_CONSTRUCTION"), Token("200") ]
  }

  /** The arguments `EnsureIndexExists` passes to `FT.CREATE`, as written:
      the attribute count RediSearch expects after `HNSW` is missing. */
  function CreateIndexArgs(): (args: seq<Arg>)
    ensures |args| == 22
  {
    IndexHead() + TextSchema() + VectorHead() + AttributeTokens()
  }

  /** The common head `idx:documents ON HASH PREFIX 1 doc: SCHEMA`. */
  lemma ReadCreateHead(args: seq<Arg>)
    requires |args| >= 7 && args[..7] == IndexHead()
    ensures ReadCreate(args) == (match ReadSchema(args, 7)
      case None => None
      case Some(fs) => Some(IndexSpec(IndexName, "HASH", [KeyPrefix], fs)))
  {
    var h := args[..7];
    assert args[0] == h[0] == Token(IndexName) && args[1] == h[1] == Token("ON");
    assert args[2] == h[2] == Token("HASH") && args[3] == h[3] == Token("PREFIX");
    assert args[4] == h[4] == Token("1") && args[5] == h[5] == Token(KeyPrefix);
    assert args[6] == h[6] == Token("SCHEMA");
    assert ParseInt("1") == Some(1);
    assert [KeyPrefix] + [] == [KeyPrefix];
    assert ReadTokens(args, 5, 6) == Some([KeyPrefix]);
  }

  /** `text_field TEXT` at position 7. */
  lemma ReadSchemaTextField(args: seq<Arg>)
    requires |args| >= 9 && args[7..9] == TextSchema()
    ensures ReadSchema(args, 7) == (match ReadSchema(args, 9)
      case None => None
      case Some(rest) => Some([TextFieldSpec(TextField)] + rest))
  {
    assert args[7] == args[7..9][0] && args[8] == args[7..9][1];
  }

  /** A vector field whose algorithm is followed by `TYPE` instead of a
      count cannot be read. */
  lemma ReadSchemaVectorWithoutCount(args: seq<Arg>)
    requires |args| >= 13
    requires args[9] == Token(VectorField) && args[10] == Token("VECTOR") && args[11] == Token("HNSW")
    requires args[12] == Token("TYPE")
    ensures IntAt(args, 12) == None
    ensures ReadSchema(args, 9) == None
  {
    assert !AllDigits("TYPE") by { assert !IsDigit("TYPE"[0]); }
  }

  /** As written, the token after `HNSW` is `TYPE`, which is not a count, so
      the server cannot read the schema. */
  lemma CreateIndexArgsUnreadable()
    ensures TokenAt(CreateIndexArgs(), 11) == Some("HNSW") && IntAt(CreateIndexArgs(), 12) == None
    ensures ReadCreate(CreateIndexArgs()) == None
  {
    var args := CreateIndexArgs();
    assert ReadSchema(args, 9) == None by {
      ReadSchemaVectorWithoutCount(args);
    }
    assert ReadSchema(args, 7) == None by {
      assert args[7..9] == TextSchema();
      ReadSchemaTextField(args);
    }
    assert args[..7] == IndexHead();
    ReadCreateHead(args);
  }

  /** The vector field's attributes, the ten tokens after the count. */
  function VectorAttributes(): seq<(string, Arg)> {
    [ ("TYPE", Token("FLOAT32")), ("DIM", Token(IntToString(EmbeddingDim))),
      ("DISTANCE_METRIC", Token("COSINE")), ("M", Token("16")), ("EF_CONSTRUCTION", Token("200")) ]
  }

  /** The argument list with the attribute count (ten tokens) after `HNSW`. */
  function CreateIndexArgsWithCount(): (args: seq<Arg>)
    ensures |args| == 23
  {
    IndexHead() + TextSchema() + VectorHead() + [Token("10")] + AttributeTokens()
  }

  /** The corrected list is the written one with the count of the ten
      attribute tokens inserted after `HNSW`, and nothing else changed. */
  lemma CountInsertedAfterAlgorithm()
    ensures CreateIndexArgsWithCount()[..12] == CreateIndexArgs()[..12]
    ensures CreateIndexArgsWithCount()[13..] == CreateIndexArgs()[12..]
    ensures IntAt(CreateIndexArgsWithCount(), 12) == Some(|CreateIndexArgsWithCount()| - 13)
  {
    assert DigitsValue("10") == 10 by {
      assert "10"[..1] == "1";
    }
  }

  /** The index the demo means to create. */
  function IntendedIndex(): IndexSpec {
    IndexSpec(IndexName, "HASH", [KeyPrefix],
      [TextFieldSpec(TextField), VectorFieldSpec(VectorField, "HNSW", VectorAttributes())])
  }

  /** With the count in place the server reads the intended schema: one key
      prefix `doc:`, the text field as TEXT, and the vector field as an HNSW
      vector of FLOAT32 components, dimension 1536, COSINE distance. */
  lemma CreateIndexArgsWithCountRead()
    ensures ReadCreate(CreateIndexArgsWithCount()) == Some(IntendedIndex())
  {
    var args := CreateIndexArgsWithCount();
    var vf := VectorFieldSpec(VectorField, "HNSW", VectorAttributes());
    CountedVectorFieldRead();
    assert ReadSchema(args, 7) == Some([TextFieldSpec(TextField), vf]) by {
      assert args[7..9] == TextSchema();
      ReadSchemaTextField(args);
      assert [TextFieldSpec(TextField)] + [vf] == [TextFieldSpec(TextField), vf];
    }
    assert args[..7] == IndexHead();
    ReadCreateHead(args);
  }

  /** The vector field of the corrected list, from position 9 to the end. */
  lemma CountedVectorFieldRead()
    ensures ReadSchema(CreateIndexArgsWithCount(), 9) == Some([VectorFieldSpec(VectorField, "HNSW", VectorAttributes())])
  {
    var args := CreateIndexArgsWithCount();
    assert args[9..12] == VectorHead();
    assert args[12] == Token("10");
    assert args[13..] == AttributeTokens();
    ReadCountedVectorField(args);
  }

  /** `vector_field VECTOR HNSW 10` and the ten attribute tokens, ending the list. */
  lemma ReadCountedVectorField(args: seq<Arg>)
    requires |args| == 23 && args[9..12] == VectorHead() && args[12] == Token("10")
    requires args[13..] == AttributeTokens()
    ensures ReadSchema(args, 9) == Some([VectorFieldSpec(VectorField, "HNSW", VectorAttributes())])
  {
    var vf := VectorFieldSpec(VectorField, "HNSW", VectorAttributes());
    assert IntAt(args, 12) == Some(10) by {
      TenParses();
    }
    assert ReadPairs(args, 13, 23) == Some(VectorAttributes()) by {
      ReadCountedAttributes(args, 13);
    }
    assert ReadSchema(args, 23) == Some([]);
    assert args[9] == Token(VectorField) && args[10] == Token("VECTOR") && args[11] == Token("HNSW") by {
      assert args[9..12][0] == args[9] && args[9..12][1] == args[10] && args[9..12][2] == args[11];
    }
    ReadSchemaVectorField(args, 9, "HNSW", 10, VectorAttributes());
    assert [vf] + [] == [vf];
  }

  /** The intended vector attributes: FLOAT32 components, and a dimension
      that reads back as the embedding size 1536. */
  lemma VectorAttributesMeaning()
    ensures Lookup(VectorAttributes(), "TYPE") == Some(Token("FLOAT32"))
    ensures Lookup(VectorAttributes(), "DIM") == Some(Token(IntToString(EmbeddingDim)))
    ensures ParseInt(IntToString(EmbeddingDim)) == Some(EmbeddingDim)
  {
    var va := VectorAttributes();
    assert va[0].0 == "TYPE";
    assert va[1..][0].0 == "DIM" && "TYPE" != "DIM";
    IntToStringRoundTrip(EmbeddingDim);
  }

  lemma TenParses()
    ensures ParseInt("10") == Some(10)
  {
    assert DigitsValue("10") == 10 by {
      assert "10"[..1] == "1";
    }
  }

  /** A vector field `name VECTOR alg n a1 .. an` followed by the rest of
      the schema. */
  lemma ReadSchemaVectorField(args: seq<Arg>, i: nat, alg: string, n: nat, attrs: seq<(string, Arg)>)
    requires i + 4 + n <= |args|
    requires args[i] == Token(VectorField) && args[i + 1] == Token("VECTOR") && args[i + 2] == Token(alg)
    requires IntAt(args, i + 3) == Some(n)
    requires ReadPairs(args, i + 4, i + 4 + n) == Some(attrs)
    ensures ReadSchema(args, i) == (match ReadSchema(args, i + 4 + n)
      case None => None
      case Some(rest) => Some([VectorFieldSpec(VectorField, alg, attrs)] + rest))
  {
  }

  /** The ten attribute tokens read as `VectorAttributes`. */
  lemma ReadCountedAttributes(args: seq<Arg>, lo: nat)
    requires lo + 10 == |args| && args[lo..] == AttributeTokens()
    ensures ReadPairs(args, lo, lo + 10) == Some(VectorAttributes())
  {
    var va := VectorAttributes();
    assert ReadPairs(args, lo + 10, lo + 10) == Some([]);
    assert [va[4]] + [] == va[4..];
    assert ReadPairs(args, lo + 8, lo + 10) == Some(va[4..]);
    assert [va[3]] + va[4..] == va[3..];
    assert ReadPairs(args, lo + 6, lo + 10) == Some(va[3..]);
    assert [va[2]] + va[3..] == va[2..];
    assert ReadPairs(args, lo + 4, lo + 10) == Some(va[2..]);
    assert [va[1]] + va[2..] == va[1..];
    assert ReadPairs(args, lo + 2, lo + 10) == Some(va[1..]);
    assert [va[0]] + va[1..] == va;
  }

  datatype ProbeOutcome = ProbeSucceeded | ProbeThrew(exception: string)

  /** The commands `EnsureIndexExists` issues: always the `FT.INFO` probe, and
      `FT.CREATE` with the schema exactly when the probe threw, whatever the
      exception. */
  function EnsureIndexExists(probe: ProbeOutcome): (cmds: seq<Command>)
    ensures |cmds| >= 1 && cmds[0] == Command("FT.INFO", [Token(IndexName)])
    ensures |cmds| == 2 <==> probe.ProbeThrew?
    ensures |cmds| == 1 || |cmds| == 2
    ensures |cmds| == 2 ==> cmds[1] == Command("FT.CREATE", CreateIndexArgs())
  {
    var info := Command("FT.INFO", [Token(IndexName)]);
    match probe
    case ProbeSucceeded => [info]
    case ProbeThrew(_) => [info, Command("FT.CREATE", CreateIndexArgs())]
  }

  // ---------------------------------------------------------------------------
  // HSET

  datatype HashWrite = HashWrite(key: string, entries: seq<(string, Arg)>)

  /** `UpsertDoc`: the key and hash entries written for one document. */
  function UpsertDoc(id: string, text: string, vector: seq<Float32>, hostIsLittleEndian: bool): (w: HashWrite)
    ensures |KeyPrefix| <= |w.key| && w.key[..|KeyPrefix|] == KeyPrefix && w.key[|KeyPrefix|..] == id
    ensures |w.entries| == 2 && w.entries[0] == (TextField, Token(text)) && w.entries[1].0 == VectorField
    ensures w.entries[1].1.Blob? && |w.entries[1].1.bytes| == 4 * |vector|
    ensures w.entries[1].1.Blob? && |w.entries[1].1.bytes| % 4 == 0 && Decode(w.entries[1].1.bytes) == vector
  {
    DecodeEncode(vector);
    HashWrite(KeyPrefix + id, [(TextField, Token(text)), (VectorField, Blob(Encode(vector)))])
  }

  /** The document is written where the index looks and in its schema: the
      key is the index's one declared prefix followed by the id, and the two
      entries are the schema's TEXT field holding the text and its VECTOR
      field holding a blob that decodes to the vector. */
  lemma UpsertDocMatchesIndex(id: string, text: string, vector: seq<Float32>, hostIsLittleEndian: bool)
    ensures var w := UpsertDoc(id, text, vector, hostIsLittleEndian);
      var spec := IntendedIndex();
      && |spec.prefixes| == 1 && |spec.schema| == 2
      && |spec.prefixes[0]| <= |w.key| && w.key[..|spec.prefixes[0]|] == spec.prefixes[0]
      && w.key[|spec.prefixes[0]|..] == id
      && |w.entries| == 2
      && spec.schema[0].TextFieldSpec? && w.entries[0] == (spec.schema[0].name, Token(text))
      && spec.schema[1].VectorFieldSpec? && w.entries[1].0 == spec.schema[1].name
      && w.entries[1].1.Blob? && Decode(w.entries[1].1.bytes) == vector
      && ReadCreate(CreateIndexArgsWithCount()) == Some(spec)
  {
    CreateIndexArgsWithCountRead();
    DecodeEncode(vector);
    var w := UpsertDoc(id, text, vector, hostIsLittleEndian);
    assert w.key[..|KeyPrefix|] == KeyPrefix;
    assert w.key[|KeyPrefix|..] == id;
  }

  // ---------------------------------------------------------------------------
  // The context handed to the chat model

  function Texts(hits: seq<SearchParser.Hit>): (ts: seq<string>)
    ensures |ts| == |hits|
    ensures forall i :: 0 <= i < |hits| ==> ts[i] == hits[i].text
  {
    if |hits| == 0 then [] else [hits[0].text] + Texts(hits[1..])
  }

  /** The hits' texts joined with `"\n---\n"`. */
  function BuildContext(hits: seq<SearchParser.Hit>): (c: string)
    ensures |hits| == 0 ==> c == ""
    ensures |hits| > 0 ==> |c| == Offset(ContextSeparator, Texts(hits), |hits| - 1) + |hits[|hits| - 1].text|
  {
    var c := Join(ContextSeparator, Texts(hits));
    if |hits| == 0 then c
    else JoinLength(ContextSeparator, Texts(hits)); c
  }

  /** Hit `i`'s text appears whole at its offset in the context, in hit
      order, followed by the separator unless it is the last hit, whose text
      ends the context. */
  lemma ContextHoldsHitTexts(hits: seq<SearchParser.Hit>, i: nat)
    requires i < |hits|
    ensures var ts := Texts(hits); var c := BuildContext(hits); var o := Offset(ContextSeparator, ts, i);
      && o + |hits[i].text| <= |c|
      && c[o .. o + |hits[i].text|] == hits[i].text
      && (i + 1 < |hits| ==>
            Offset(ContextSeparator, ts, i + 1) <= |c|
            && c[o + |hits[i].text| .. Offset(ContextSeparator, ts, i + 1)] == ContextSeparator)
      && (i + 1 == |hits| ==> |c| == o + |hits[i].text|)
  {
    var ts := Texts(hits);
    assert BuildContext(hits) == Join(ContextSeparator, ts);
    JoinPiece(ContextSeparator, ts, i);
  }

  /** With no hits the context is empty. */
  lemma EmptyContext(hits: seq<SearchParser.Hit>)
    requires |hits| == 0
    ensures BuildContext(hits) == ""
  {
  }
}
