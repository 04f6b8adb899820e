/**
 * Interpreting the connect response (TapjoyConnect.buildResponse and
 * getNodeTrimValue). The XML parser is outside the model: its result is given
 * as either a parse failure or, for the first element named `Success`, the
 * node values of its children in document order (null for a child element,
 * whose getNodeValue() is null).
 */
module ConnectResponse {
  import opened Wrappers
  import opened JavaStrings

  datatype ParsedDocument =
    | ParseFailed                                        // ParserConfigurationException, SAXException or IOException
    | Document(firstSuccess: Option<seq<Option<string>>>) // None: getElementsByTagName("Success").item(0) is null

  /** `nodeValue += node.getNodeValue()` over the children, starting from "". */
  function ConcatNodeValues(children: seq<Option<string>>): string
    decreases |children|
  {
    if |children| == 0 then ""
    else ConcatNodeValues(children[..|children| - 1]) + Shown(children[|children| - 1])
  }

  /** getNodeTrimValue: null without an element or for an empty concatenation, else the trimmed text. */
  function NodeTrimValue(success: Option<seq<Option<string>>>): Option<string>
  {
    match success
    case None => None
    case Some(children) =>
      var text := ConcatNodeValues(children);
      if text == "" then None else Some(Trim(text))
  }

  /** The server acknowledged the connect call: the first Success element's text, trimmed, is exactly "true". */
  predicate Acknowledged(doc: ParsedDocument)
  {
    doc.Document? && doc.firstSuccess.Some? && Trim(ConcatNodeValues(doc.firstSuccess.value)) == "true"
  }

  /** The loop of getNodeTrimValue. */
  method GetNodeTrimValue(success: Option<seq<Option<string>>>) returns (r: Option<string>)
    ensures r == NodeTrimValue(success)
    ensures r.Some? ==> r.value == Trim(ConcatNodeValues(success.value)) && ConcatNodeValues(success.value) != ""
    ensures r.None? ==> success.None? || ConcatNodeValues(success.value) == ""
  {
    if success.None? {
      return None;
    }
    var itemNodeList := success.value;
    var nodeValue := "";
    var length := |itemNodeList|;
    for i := 0 to length
      invariant nodeValue == ConcatNodeValues(itemNodeList[..i])
    {
      assert itemNodeList[..i + 1][..i] == itemNodeList[..i];
      nodeValue := nodeValue + Shown(itemNodeList[i]);
    }
    assert itemNodeList[..length] == itemNodeList;
    if nodeValue != "" {
      r := Some(Trim(nodeValue));
    } else {
      r := None;
    }
  }

  /** buildResponse: true exactly when the response is an acknowledgement. */
  method BuildResponse(doc: ParsedDocument) returns (ok: bool)
    ensures ok == Acknowledged(doc)
  {
    if doc.ParseFailed? {
      return false;
    }
    var nodeValue := GetNodeTrimValue(doc.firstSuccess);
    ok := nodeValue.Some? && nodeValue.value == "true";
  }

  /**
   * The acknowledgement is a literal, case-sensitive "true" surrounded by any
   * characters up to U+0020, wherever the text is split across child nodes.
   */
  lemma AcknowledgedPadded(p: string, q: string, children: seq<Option<string>>)
    requires AllBlank(p) && AllBlank(q)
    requires ConcatNodeValues(children) == p + "true" + q
    ensures Acknowledged(Document(Some(children)))
  {
    TrimPadded(p, "true", q);
  }

  /** Concatenating the node values of two runs of children is concatenating their texts. */
  lemma {:induction false} ConcatNodeValuesAppend(a: seq<Option<string>>, b: seq<Option<string>>)
    ensures ConcatNodeValues(a + b) == ConcatNodeValues(a) + ConcatNodeValues(b)
    decreases |b|
  {
    if b == [] {
      assert a + b == a;
    } else {
      var ab, init, last := a + b, b[..|b| - 1], b[|b| - 1];
      assert |ab| > 0 && ab[..|ab| - 1] == a + init && ab[|ab| - 1] == last;
      ConcatNodeValuesAppend(a, init);
      calc {
        ConcatNodeValues(ab);
        ConcatNodeValues(ab[..|ab| - 1]) + Shown(ab[|ab| - 1]);
        ConcatNodeValues(a + init) + Shown(last);
      }
    }
  }

  /** `nodeValue += node.getNodeValue()` with a null value appends the four characters "null" at that point. */
  lemma NullChildShowsNull(children: seq<Option<string>>, k: nat)
    requires k < |children| && children[k].None?
    ensures ConcatNodeValues(children) ==
              ConcatNodeValues(children[..k]) + "null" + ConcatNodeValues(children[k + 1..])
  {
    var before, after := children[..k], children[k + 1..];
    var upTo := before + [children[k]];
    assert children == upTo + after;
    ConcatNodeValuesAppend(upTo, after);
    assert upTo[..|upTo| - 1] == before;
    assert ConcatNodeValues(upTo) == ConcatNodeValues(before) + "null";
  }

  /** A text holding an 'n' does not trim to "true": 'n' is neither blank nor a letter of "true". */
  lemma TrimWithNIsNotTrue(c: string, i: nat)
    requires i < |c| && c[i] == 'n'
    ensures Trim(c) != "true"
  {
    var st := TrimStart(c);
    var t := Trim(c);
    assert forall j :: 0 <= j < st ==> c[j] == c[..st][j];
    assert forall j :: st + |t| <= j < |c| ==> c[j] == c[st + |t|..][j - st - |t|];
    assert forall j :: st <= j < st + |t| ==> c[j] == t[j - st];
  }

  /**
   * A child node with a null value contributes the text "null", so a Success
   * element with a child element (`<Success><b>true</b></Success>`) is never an
   * acknowledgement.
   */
  lemma NullChildRejected(children: seq<Option<string>>, k: nat)
    requires k < |children| && children[k].None?
    ensures !Acknowledged(Document(Some(children)))
  {
    NullChildShowsNull(children, k);
    var before := ConcatNodeValues(children[..k]);
    var c := ConcatNodeValues(children);
    assert c[|before|] == (before + "null")[|before|];
    TrimWithNIsNotTrue(c, |before|);
  }

  lemma AcknowledgedExamples()
    ensures Acknowledged(Document(Some([Some("true")])))
  {
    AcknowledgedPadded("", "", [Some("true")]);
  }

  /** The text may be split across text nodes and padded with a space and a newline. */
  lemma AcknowledgedAcrossNodes()
    ensures Acknowledged(Document(Some([Some(" tr"), Some("ue\n")])))
  {
    var children := [Some(" tr"), Some("ue\n")];
    assert children[..1] == [Some(" tr")];
    assert ConcatNodeValues(children[..1]) == " tr";
    assert ConcatNodeValues(children) == " tr" + "ue\n";
    assert " tr" + "ue\n" == " " + "true" + "\n";
    AcknowledgedPadded(" ", "\n", children);
  }

  lemma RejectedExamples()
    ensures !Acknowledged(Document(Some([Some("True")])))
    ensures !Acknowledged(Document(Some([Some("false")])))
    ensures !Acknowledged(Document(Some([None])))
    ensures !Acknowledged(Document(Some([])))
    ensures !Acknowledged(Document(None))
    ensures !Acknowledged(ParseFailed)
  {
    assert ConcatNodeValues([Some("True")]) == "True";
    TrimPadded("", "True", "");
    assert ConcatNodeValues([Some("false")]) == "false";
    TrimPadded("", "false", "");
    NullChildRejected([None], 0);
  }
}
