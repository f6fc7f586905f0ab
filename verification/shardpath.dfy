/** Where the crawler stores a downloaded ruling (`get_path` of
    `arbitr_crawler/arbitr_crawler/spiders/simple_download_spider.py`):
    `../out/docs_simple2/<first two characters of the case id>/<case id>.html`. */
module ShardPath {
  import opened Chars

  const Root: seq<char> := "../out/docs_simple2/"
  const Ext: seq<char> := ".html"

  /** `case_id[:2]`: the first two characters, or the whole id when shorter. */
  function Shard(caseId: seq<char>): (r: seq<char>)
    ensures |r| == if |caseId| < 2 then |caseId| else 2
    ensures caseId == r + caseId[|r|..]
  {
    caseId[..if |caseId| < 2 then |caseId| else 2]
  }

  /** `get_path` on the case id. */
  function GetPath(caseId: seq<char>): (r: seq<char>)
    ensures |r| == |Root| + |Shard(caseId)| + 1 + |caseId| + |Ext|
    ensures r[..|Root|] == Root && r[|r| - |Ext|..] == Ext
    ensures r[|Root|..|Root| + |Shard(caseId)|] == Shard(caseId) && r[|Root| + |Shard(caseId)|] == '/'
    ensures r[|Root| + |Shard(caseId)| + 1..|r| - |Ext|] == caseId
  {
    Root + Shard(caseId) + "/" + caseId + Ext
  }

  /** `get_path(doc)`: only the `case_id` field is read; a document without one
      is not stored. */
  function DocPath(doc: map<seq<char>, seq<char>>): (r: Option<seq<char>>)
    ensures r.Some? <==> "case_id" in doc
    ensures r.Some? ==> CaseIdFromPath(r.value) == Some(doc["case_id"])
  {
    if "case_id" in doc then
      RoundTrip(doc["case_id"]);
      Some(GetPath(doc["case_id"]))
    else None
  }

  /** The id length a path of length `n` was built from: the shard takes
      `min(2, k)` characters of a `k`-character id. */
  function IdLength(n: nat): (r: Option<nat>)
    ensures r.Some? ==> (if r.value < 2 then 2 * r.value else r.value + 2) == n
    ensures forall k: nat :: (if k < 2 then 2 * k else k + 2) == n ==> r == Some(k)
  {
    if n >= 4 then Some(n - 2) else if n == 2 then Some(1) else if n == 0 then Some(0) else None
  }

  /** The case id a stored file belongs to. */
  function CaseIdFromPath(p: seq<char>): (r: Option<seq<char>>)
    ensures r.Some? ==> GetPath(r.value) == p
  {
    if |p| < |Root| + 1 + |Ext| then None
    else match IdLength(|p| - |Root| - 1 - |Ext|)
      case None => None
      case Some(k) =>
        var start := |Root| + (if k < 2 then k else 2) + 1;
        var id := p[start..start + k];
        if GetPath(id) == p then Some(id) else None
  }

  /** Every path `get_path` builds names its case id. */
  lemma RoundTrip(caseId: seq<char>)
    ensures CaseIdFromPath(GetPath(caseId)) == Some(caseId)
  {
    var p := GetPath(caseId);
    var k := |caseId|;
    assert IdLength(|p| - |Root| - 1 - |Ext|) == Some(k);
  }

  /** Different case ids are stored in different files. */
  lemma Injective(a: seq<char>, b: seq<char>)
    requires GetPath(a) == GetPath(b)
    ensures a == b
  {
    RoundTrip(a);
    RoundTrip(b);
  }
}
