/** What the page derives from MEDLINE records: the per-article display
    fields, the abstracts handed to trend analysis, and the rows of the CSV
    export. */
module Records {
  import opened Wrappers
  import opened Text
  import LlmUtils

  /** One MEDLINE record as the MEDLINE parser returns it: a tag maps to a
      string (PMID, TI, JT, DP, AB, LID, ...) or, for the repeatable tags
      (AU, MH, ...), to a list of strings. */
  datatype Record = Record(text: map<string, string>, lists: map<string, seq<string>>)

  /** `record.get(tag, default)` on a text tag. */
  function Get(r: Record, tag: string, default: string): string {
    if tag in r.text then r.text[tag] else default
  }

  /** `record.get(tag, default)` on a list tag. */
  function GetList(r: Record, tag: string, default: seq<string>): seq<string> {
    if tag in r.lists then r.lists[tag] else default
  }

  /** Python truthiness of `record.get(tag)` on a text tag: present and
      not the empty string. */
  predicate Has(r: Record, tag: string) {
    tag in r.text && r.text[tag] != ""
  }

  /** The message of the IndexError raised by `[][0]`. */
  const IndexErrorMessage := "list index out of range"

  /** `s.split()[0]`: the first maximal run of non-whitespace characters
      of `s`; it raises when `s` has none. */
  function FirstWord(s: string): (r: Result<string>)
    ensures r.Err? <==> AllSpace(s)
    ensures r.Err? ==> r.error == IndexErrorMessage
    ensures r.Ok? ==>
              var k, w := LeadingSpace(s), r.value;
              && w != [] && NoSpace(w)
              && AllSpace(s[..k])
              && k + |w| <= |s| && s[k..k + |w|] == w
              && (k + |w| == |s| || IsSpace(s[k + |w|]))
  {
    WordsEmptyIff(s);
    var ws := Words(s);
    if ws == [] then Err(IndexErrorMessage)
    else FirstWordIsFirstRun(s); Ok(ws[0])
  }

  /** `s.split(" ")[0]`: the text of `s` before its first space. */
  function BeforeFirstSpace(s: string): (r: string)
    ensures r <= s && ' ' !in r
    ensures r == s || s[|r|] == ' '
  {
    SplitOn(s, ' ')[0]
  }

  const PubmedBase := "https://pubmed.ncbi.nlm.nih.gov/"

  /** The PMID a PubMed article URL points to. */
  function PmidOfUrl(url: string): Option<string> {
    if PubmedBase <= url && |url| > |PubmedBase| && url[|url| - 1] == '/'
    then Some(url[|PubmedBase|..|url| - 1])
    else None
  }

  /** The article's page on PubMed; the URL gives its PMID back. */
  function PubmedUrl(pmid: string): (url: string)
    ensures PmidOfUrl(url) == Some(pmid)
  {
    var url := PubmedBase + pmid + "/";
    assert url[|PubmedBase|..|url| - 1] == pmid;
    url
  }

  /** Two PMIDs with the same URL are equal. */
  lemma UrlInjective(a: string, b: string)
    requires PubmedUrl(a) == PubmedUrl(b)
    ensures a == b
  {
  }

  // ---------------------------------------------------------------------
  // Display fields of one article

  /** The fallback date "Unknown date", written as its first word and the
      rest so that its first word can be read off directly. */
  const DefaultDate := "Unknown" + " date"

  /** The displayed year, `record.get("DP", "Unknown date").split()[0]`:
      "Unknown" without a DP tag, the first word of DP otherwise; a DP that
      is empty or all whitespace makes rendering the article raise. */
  function DisplayYear(r: Record): (y: Result<string>)
    ensures "DP" !in r.text ==> y == Ok("Unknown")
    ensures "DP" in r.text ==> y == FirstWord(r.text["DP"])
    ensures y.Err? <==> "DP" in r.text && AllSpace(r.text["DP"])
  {
    assert NoSpace("Unknown");
    WordsOfRun("Unknown", " date");
    FirstWord(Get(r, "DP", DefaultDate))
  }

  /** The displayed DOI: "N/A" exactly when LID is absent or empty;
      otherwise the LID up to, not including, its first space. */
  function DisplayDoi(r: Record): (d: string)
    ensures !Has(r, "LID") ==> d == "N/A"
    ensures Has(r, "LID") ==>
              var lid := r.text["LID"];
              d <= lid && ' ' !in d && (d == lid || lid[|d|] == ' ')
  {
    if Has(r, "LID") then BeforeFirstSpace(r.text["LID"]) else "N/A"
  }

  /** `", ".join(items) if items else "N/A"`. */
  function JoinOrNa(items: seq<string>): string {
    if items == [] then "N/A" else Join(items, ", ")
  }

  /** What the page shows for one article. */
  datatype Display = Display(
    pmid: string, title: string, authors: string, journal: string, year: string,
    abstractText: string, doi: string, url: string, meshTerms: string)

  /** The article as the page renders it. It raises exactly when DP is
      present but empty or all whitespace; otherwise each field is the tag's
      value or its fallback, and the link shown leads back to the PMID
      shown. */
  function DisplayOf(r: Record): (d: Result<Display>)
    ensures d.Err? <==> "DP" in r.text && AllSpace(r.text["DP"])
    ensures d.Err? ==> d.error == IndexErrorMessage
    ensures d.Ok? ==>
              && Ok(d.value.year) == DisplayYear(r)
              && d.value.pmid == Get(r, "PMID", "N/A")
              && PmidOfUrl(d.value.url) == Some(d.value.pmid)
              && d.value.doi == DisplayDoi(r)
              && d.value.title == Get(r, "TI", "No title")
              && d.value.journal == Get(r, "JT", "Unknown journal")
              && d.value.abstractText == Get(r, "AB", "No abstract available.")
              && d.value.authors == (if GetList(r, "AU", []) == [] then "N/A" else Join(GetList(r, "AU", []), ", "))
              && d.value.meshTerms == (if GetList(r, "MH", []) == [] then "N/A" else Join(GetList(r, "MH", []), ", "))
  {
    var pmid := Get(r, "PMID", "N/A");
    match DisplayYear(r)
    case Err(e) => Err(e)
    case Ok(year) =>
      Ok(Display(
        pmid, Get(r, "TI", "No title"), JoinOrNa(GetList(r, "AU", [])),
        Get(r, "JT", "Unknown journal"), year, Get(r, "AB", "No abstract available."),
        DisplayDoi(r), PubmedUrl(pmid), JoinOrNa(GetList(r, "MH", []))))
  }

  /** A record dated "2021 Jun 15" is shown with year "2021". */
  lemma DisplayYearExample(r: Record)
    requires "DP" in r.text && r.text["DP"] == "2021 Jun 15"
    ensures DisplayYear(r) == Ok("2021")
  {
    DateYearExample(r.text["DP"]);
  }

  // ---------------------------------------------------------------------
  // Trend analysis over the loaded articles

  /** `[rec.get("AB", "") for rec in records if rec.get("AB")]`. */
  function TrendInput(records: seq<Record>): (abstracts: seq<string>)
    ensures |abstracts| <= |records|
  {
    if records == [] then []
    else if Has(records[0], "AB") then [records[0].text["AB"]] + TrendInput(records[1..])
    else TrendInput(records[1..])
  }

  /** The filter keeps order: the abstracts of a concatenation are those of
      each part, one after the other. */
  lemma {:induction false} TrendInputAppend(a: seq<Record>, b: seq<Record>)
    ensures TrendInput(a + b) == TrendInput(a) + TrendInput(b)
  {
    if a != [] {
      assert (a + b)[1..] == a[1..] + b;
      TrendInputAppend(a[1..], b);
    } else {
      assert a + b == b;
    }
  }

  /** Every element handed to trend analysis is the non-empty abstract of
      some loaded record; the list is empty exactly when no record has a
      non-empty abstract. */
  lemma {:induction false} TrendInputContents(records: seq<Record>)
    ensures forall k :: 0 <= k < |TrendInput(records)| ==>
              TrendInput(records)[k] != "" &&
              exists i :: 0 <= i < |records| && Has(records[i], "AB") && records[i].text["AB"] == TrendInput(records)[k]
    ensures TrendInput(records) == [] <==> forall i :: 0 <= i < |records| ==> !Has(records[i], "AB")
  {
    if records != [] {
      var rest := records[1..];
      TrendInputContents(rest);
      forall k | 0 <= k < |TrendInput(records)|
        ensures exists i :: 0 <= i < |records| && Has(records[i], "AB") && records[i].text["AB"] == TrendInput(records)[k]
      {
        if Has(records[0], "AB") && k == 0 {
        } else {
          var k' := if Has(records[0], "AB") then k - 1 else k;
          assert TrendInput(records)[k] == TrendInput(rest)[k'];
          var i :| 0 <= i < |rest| && Has(rest[i], "AB") && rest[i].text["AB"] == TrendInput(rest)[k'];
          assert records[i + 1] == rest[i];
        }
      }
      if TrendInput(records) == [] {
        forall i | 0 <= i < |records| ensures !Has(records[i], "AB") {
          if i > 0 { assert records[i] == rest[i - 1]; }
        }
      }
    }
  }

  /** The abstract of every record that has one is handed to trend
      analysis. */
  lemma TrendInputComplete(records: seq<Record>, i: nat)
    requires i < |records| && Has(records[i], "AB")
    ensures records[i].text["AB"] in TrendInput(records)
  {
    var before, after := records[..i], records[i + 1..];
    assert records == before + ([records[i]] + after);
    TrendInputAppend(before, [records[i]] + after);
    assert ([records[i]] + after)[1..] == after;
  }

  /** What the "Analyze Trends" action shows. */
  datatype Outcome = Info(message: string) | Shown(text: string) | Failed(message: string)

  const NoAbstractsMessage := "No abstracts available for trend analysis."
  const TrendErrorPrefix := "Trend analysis error: "

  /** The "Analyze Trends" action: the informational message when no
      record has an abstract, otherwise the model's analysis of the
      abstracts, or the error it raised behind `TrendErrorPrefix`. */
  function AnalyzeTrendsAction(model: LlmUtils.Model, records: seq<Record>): (o: Outcome)
    ensures o.Info? <==> TrendInput(records) == []
    ensures o.Info? ==> o.message == NoAbstractsMessage
    ensures !o.Info? ==>
              match LlmUtils.AnalyzeTrends(model, TrendInput(records))
              case Ok(s) => o == Shown(s)
              case Err(e) => o == Failed(TrendErrorPrefix + e)
  {
    var abstracts := TrendInput(records);
    if abstracts == [] then Info(NoAbstractsMessage)
    else
      match LlmUtils.AnalyzeTrends(model, abstracts)
      case Ok(s) => Shown(s)
      case Err(e) => Failed(TrendErrorPrefix + e)
  }

  /** Without abstracts the model is not consulted: every model gives the
      same outcome. */
  lemma NoAbstractsNoModelCall(m1: LlmUtils.Model, m2: LlmUtils.Model, records: seq<Record>)
    requires forall i :: 0 <= i < |records| ==> !Has(records[i], "AB")
    ensures AnalyzeTrendsAction(m1, records) == AnalyzeTrendsAction(m2, records) == Info(NoAbstractsMessage)
  {
    TrendInputContents(records);
  }

  // ---------------------------------------------------------------------
  // CSV export

  /** One row of the export, one field per column: PMID, Title, Journal,
      Year, Authors, Abstract, DOI, PubMed URL. */
  datatype ExportRow = ExportRow(
    pmid: string, title: string, journal: string, year: string,
    authors: string, abstractText: string, doi: string, url: string)

  /** The export row of one record; it raises IndexError when DP is
      present and non-empty but holds only whitespace. */
  function ExportRowOf(r: Record): (row: Result<ExportRow>)
    ensures row.Err? <==> Has(r, "DP") && AllSpace(r.text["DP"])
    ensures row.Err? ==> row.error == IndexErrorMessage
    ensures row.Ok? ==>
              && row.value.pmid == Get(r, "PMID", "")
              && row.value.url == PubmedUrl(row.value.pmid)
              && row.value.title == Get(r, "TI", "")
              && row.value.journal == Get(r, "JT", "")
              && row.value.abstractText == Get(r, "AB", "")
              && (!Has(r, "DP") ==> row.value.year == "")
              && (Has(r, "DP") ==> Ok(row.value.year) == FirstWord(r.text["DP"]))
              && row.value.authors == Join(GetList(r, "AU", []), "; ")
              && (!Has(r, "LID") ==> row.value.doi == "")
              && (Has(r, "LID") ==> row.value.doi == DisplayDoi(r))
  {
    var year := if Has(r, "DP") then FirstWord(r.text["DP"]) else Ok("");
    match year
    case Err(e) => Err(e)
    case Ok(y) =>
      var pmid := Get(r, "PMID", "");
      Ok(ExportRow(
        pmid, Get(r, "TI", ""), Get(r, "JT", ""), y,
        Join(GetList(r, "AU", []), "; "), Get(r, "AB", ""),
        if Has(r, "LID") then BeforeFirstSpace(r.text["LID"]) else "",
        PubmedUrl(pmid)))
  }

  /** The export loop: one row per record, in record order; the first
      record whose row raises ends the loop with that error. */
  method BuildExport(records: seq<Record>) returns (result: Result<seq<ExportRow>>)
    ensures result.Ok? <==> forall i :: 0 <= i < |records| ==> ExportRowOf(records[i]).Ok?
    ensures result.Ok? ==>
              |result.value| == |records| &&
              forall i :: 0 <= i < |records| ==> ExportRowOf(records[i]) == Ok(result.value[i])
    ensures result.Err? ==>
              exists i :: 0 <= i < |records| && ExportRowOf(records[i]) == Err(result.error) &&
                forall j :: 0 <= j < i ==> ExportRowOf(records[j]).Ok?
    ensures result.Err? ==> result.error == IndexErrorMessage
  {
    var exportData: seq<ExportRow> := [];
    var i := 0;
    while i < |records|
      invariant 0 <= i <= |records|
      invariant |exportData| == i
      invariant forall k :: 0 <= k < i ==> ExportRowOf(records[k]) == Ok(exportData[k])
    {
      var row := ExportRowOf(records[i]);
      if row.Err? {
        assert forall j :: 0 <= j < i ==> ExportRowOf(records[j]).Ok?;
        return Err(row.error);
      }
      exportData := exportData + [row.value];
      i := i + 1;
    }
    assert forall k :: 0 <= k < |records| ==> ExportRowOf(records[k]) == Ok(exportData[k]);
    return Ok(exportData);
  }

  /** The display and the export agree on the year whenever DP is
      non-empty. For an empty DP the display raises while the export's
      expression gives ""; on the page the display loop runs over the same
      records first, so that raise ends the render before the export is
      built, and the "" is never produced there. */
  lemma ExportYearVersusDisplay(r: Record)
    ensures Has(r, "DP") && ExportRowOf(r).Ok? ==> DisplayYear(r) == Ok(ExportRowOf(r).value.year)
    ensures "DP" in r.text && r.text["DP"] == "" ==>
              DisplayYear(r).Err? && ExportRowOf(r).Ok? && ExportRowOf(r).value.year == ""
  {
  }
}
