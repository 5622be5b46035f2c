/** The fixed registry of endpoint templates (`HFS_APIs`). */
module Constants {
  const Login: string := "https://hfs-be.yunxiao.com/v2/users/sessions"
  const UserSnapshot: string := "https://hfs-be.yunxiao.com/v2/user-center/user-snapshot"
  const ExamList: string := "https://hfs-be.yunxiao.com/v3/exam/list?start=0&limit=100"
  const ExamOverview: string := "https://hfs-be.yunxiao.com/v3/exam/${examId}/overview"
  const ExamRankInfo: string := "https://hfs-be.yunxiao.com/v3/exam/${examId}/rank-info"
  const AnswerPicture: string := "https://hfs-be.yunxiao.com/v3/exam/${examId}/papers/${paperId}/answer-picture?pid=${pid}"
  const PaperRankInfo: string := "https://hfs-be.yunxiao.com/v3/exam/${examId}/papers/${paperId}/rank-info"
}

/** The endpoint templates filled the way the screens fill them. */
module EndpointExamples {
  import opened Decimal
  import opened Js
  import opened Template
  import opened Constants

  const ExamPrefix: string := "https://hfs-be.yunxiao.com/v3/exam/"

  /** A template with one placeholder between two texts. */
  function OneHole(prefix: string, key: string, suffix: string): seq<Piece> {
    [Text(prefix), Hole(key), Text(suffix)]
  }

  lemma OneHoleRenderResolve(prefix: string, key: string, suffix: string, replacer: string -> string)
    ensures Render(OneHole(prefix, key, suffix)) == prefix + "${" + key + "}" + suffix
    ensures Resolve(OneHole(prefix, key, suffix), replacer) == prefix + replacer(key) + suffix
  {
    var p := OneHole(prefix, key, suffix);
    assert p[1..] == [Hole(key), Text(suffix)];
    assert p[1..][1..] == [Text(suffix)];
    assert p[1..][1..][1..] == [];
    assert Render(p[1..][1..]) == suffix;
    assert Resolve(p[1..][1..], replacer) == suffix;
    assert Render(p[1..]) == "${" + key + "}" + suffix;
    assert Resolve(p[1..], replacer) == replacer(key) + suffix;
  }

  lemma OneHoleSimple(prefix: string, key: string, suffix: string)
    requires '$' !in prefix && '$' !in suffix
    requires forall c :: c in key ==> Plain(c)
    ensures forall i :: 0 <= i < |OneHole(prefix, key, suffix)| ==> SimplePiece(OneHole(prefix, key, suffix)[i])
  {
  }

  /** Fills a one-placeholder template whose value for the key is `value`. */
  lemma FillOneHole(prefix: string, key: string, suffix: string, fields: map<string, JsValue>, value: string)
    requires '$' !in prefix && '$' !in suffix
    requires forall c :: c in key ==> Plain(c)
    requires Lookup(fields, key) == value
    ensures FillTemplate(prefix + "${" + key + "}" + suffix, Object(fields)) == prefix + value + suffix
  {
    OneHoleRenderResolve(prefix, key, suffix, Replacer(Object(fields)));
    OneHoleSimple(prefix, key, suffix);
    FillTemplatePieces(OneHole(prefix, key, suffix), fields);
  }

  /** An exam endpoint: the common prefix, one `examId` placeholder, then the rest of the path. */
  function ExamTemplate(suffix: string): string {
    ExamPrefix + "${" + "examId" + "}" + suffix
  }

  /** The exam endpoints of the registry share one prefix, and those naming an exam have one placeholder for it. */
  lemma ExamEndpoints()
    ensures ExamOverview == ExamTemplate("/overview")
    ensures ExamRankInfo == ExamTemplate("/rank-info")
    ensures ExamList == ExamPrefix + "list?start=0&limit=100"
  {
  }

  /** An exam endpoint with one `examId` placeholder is filled with the value looked up for `examId`. */
  lemma FillExamEndpoint(suffix: string, fields: map<string, JsValue>, value: string)
    requires '$' !in suffix
    requires Lookup(fields, "examId") == value
    ensures FillTemplate(ExamTemplate(suffix), Object(fields)) == ExamPrefix + value + suffix
  {
    assert '$' !in ExamPrefix && forall c :: c in "examId" ==> Plain(c);
    FillOneHole(ExamPrefix, "examId", suffix, fields, value);
  }

  /** The exam overview URL for exam "123". */
  lemma ExamOverviewFilled()
    ensures FillTemplate(ExamOverview, Object(map["examId" := Str("123")]))
            == "https://hfs-be.yunxiao.com/v3/exam/123/overview"
  {
    ExamEndpoints();
    FillExamEndpoint("/overview", map["examId" := Str("123")], "123");
  }

  /** A placeholder whose key is missing from the replacements is filled with the empty string. */
  lemma ExamOverviewWithoutId()
    ensures FillTemplate(ExamOverview, Object(map["paperId" := Str("p1")]))
            == "https://hfs-be.yunxiao.com/v3/exam//overview"
  {
    ExamEndpoints();
    FillExamEndpoint("/overview", map["paperId" := Str("p1")], "");
  }

  /** A falsy value (the number 0) is filled with the empty string, not with "0". */
  lemma ExamRankInfoWithZeroId()
    ensures FillTemplate(ExamRankInfo, Object(map["examId" := Number(0)]))
            == "https://hfs-be.yunxiao.com/v3/exam//rank-info"
  {
    ExamEndpoints();
    FillExamEndpoint("/rank-info", map["examId" := Number(0)], "");
  }

  /** A truthy number is printed in decimal. */
  lemma ExamRankInfoWithNumber()
    ensures FillTemplate(ExamRankInfo, Object(map["examId" := Number(42)]))
            == "https://hfs-be.yunxiao.com/v3/exam/42/rank-info"
  {
    ExamEndpoints();
    assert ToString(Number(42)) == "42";
    FillExamEndpoint("/rank-info", map["examId" := Number(42)], "42");
  }

  /** The exam list URL has no placeholder and is used as it is, whatever the replacements. */
  lemma ExamListUnchanged(replacements: JsValue)
    ensures FillTemplate(ExamList, replacements) == ExamList
  {
    ExamEndpoints();
    assert '$' !in ExamPrefix && '$' !in "list?start=0&limit=100";
    WithoutDollarNoPlaceholder(ExamList);
    NoPlaceholderUnchanged(ExamList, replacements);
  }
}
