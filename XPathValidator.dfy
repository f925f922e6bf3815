/**
 * The XPath validator: checks that every mandatory element below an
 * optional parent element has a text value, and fails with a validation
 * integration exception (E110) listing the missing ones. Evaluating an XPath
 * expression against the exchange is a library call; it is a parameter here.
 */
module XPathValidation {

  import opened Wrappers
  import opened Text
  import opened Errors

  /** What evaluating an expression yields: a node list of some length, or an invalid expression. */
  datatype Evaluation = NodeList(length: nat) | InvalidXPathExpression

  /** The exception `throwException` raises. */
  datatype ValidationIntegrationException = ValidationIntegrationException(code: ErrorCode, message: string)

  const MESSAGE_PREFIX := "The following mandatory elements aren't available or don't have any value: \n"

  /** The absolute path of element `elm`: the trimmed parent, made absolute when non-empty, then "/" and `elm`. */
  function ElementPath(parentElm: Option<string>, elm: string): (path: string)
    ensures StartsWith(path, "/")
    ensures EndsWith(path, "/" + elm)
  {
    var parent := TrimToEmpty(parentElm);
    var absElm := if !StartsWith(parent, "/") && parent != "" then "/" + parent else parent;
    assert absElm == "" || StartsWith(absElm, "/");
    var path := absElm + "/" + elm;
    assert path == absElm + ("/" + elm);
    path
  }

  /** The expression evaluated for a path: the path's text nodes. */
  function TextExpression(path: string): string
  {
    path + "/text()"
  }

  /** A path is wrong when its text nodes are missing or its expression is invalid. */
  predicate IsWrong(eval: string -> Evaluation, path: string)
  {
    var e := eval(TextExpression(path));
    e.InvalidXPathExpression? || e.length == 0
  }

  /** The absolute path of every element, in element order. */
  function Paths(parentElm: Option<string>, elements: seq<string>): (paths: seq<string>)
    ensures |paths| == |elements|
    ensures forall k :: 0 <= k < |elements| ==> paths[k] == ElementPath(parentElm, elements[k])
  {
    seq(|elements|, k requires 0 <= k < |elements| => ElementPath(parentElm, elements[k]))
  }

  /** The wrong ones among `paths`, keeping their order. */
  function WrongOnes(eval: string -> Evaluation, paths: seq<string>): (wrong: seq<string>)
    ensures |wrong| <= |paths|
  {
    if paths == [] then []
    else
      var rest := WrongOnes(eval, paths[..|paths| - 1]);
      var path := paths[|paths| - 1];
      if IsWrong(eval, path) then rest + [path] else rest
  }

  /** The wrong paths of the validator's elements, in element order. */
  function WrongPaths(parentElm: Option<string>, elements: seq<string>, eval: string -> Evaluation): seq<string>
  {
    WrongOnes(eval, Paths(parentElm, elements))
  }

  /** What `process` ends with: nothing, or the E110 exception naming the wrong paths joined by ", ". */
  function Verdict(wrong: seq<string>): Outcome<ValidationIntegrationException>
  {
    if wrong == [] then Pass
    else Fail(ValidationIntegrationException(E110, MESSAGE_PREFIX + Join(wrong, ", ")))
  }

  class XPathValidator {
    const parentElm: Option<string>
    const elements: seq<string>

    /** `XPathValidator(parentElm, ns, elements...)`; the namespaces are part of the evaluation oracle. */
    constructor (parentElm: Option<string>, elements: seq<string>)
      requires |elements| > 0
      ensures this.parentElm == parentElm && this.elements == elements
    {
      this.parentElm := parentElm;
      this.elements := elements;
    }

    /** `XPathValidator(ns, elements...)`: no parent element. */
    constructor WithoutParent(elements: seq<string>)
      requires |elements| > 0
      ensures this.parentElm == None && this.elements == elements
    {
      this.parentElm := None;
      this.elements := elements;
    }

    /** `process`: collect the wrong paths in element order, then fail with E110 when there is any. */
    method Process(eval: string -> Evaluation) returns (r: Outcome<ValidationIntegrationException>)
      ensures r == Verdict(WrongPaths(parentElm, elements, eval))
    {
      var wrongElms: seq<string> := [];
      for i := 0 to |elements|
        invariant wrongElms == WrongOnes(eval, Paths(parentElm, elements[..i]))
      {
        var absElm := ElementPath(parentElm, elements[i]);
        var xpathExp := TextExpression(absElm);
        var e := eval(xpathExp);
        assert Paths(parentElm, elements[..i + 1])[..i] == Paths(parentElm, elements[..i]);
        if e.InvalidXPathExpression? || e.length == 0 {
          wrongElms := wrongElms + [absElm];
        }
      }
      assert elements[..|elements|] == elements;
      if wrongElms != [] {
        r := Fail(ValidationIntegrationException(E110, MESSAGE_PREFIX + Join(wrongElms, ", ")));
      } else {
        r := Pass;
      }
    }
  }

  // ---- properties ----

  /** A path is listed exactly when it is one of the paths and it is wrong. */
  lemma {:induction false} WrongOnesMembership(eval: string -> Evaluation, paths: seq<string>, p: string)
    ensures p in WrongOnes(eval, paths) <==> p in paths && IsWrong(eval, p)
  {
    if paths != [] {
      var init := paths[..|paths| - 1];
      WrongOnesMembership(eval, init, p);
      assert paths == init + [paths[|paths| - 1]];
    }
  }

  /** `w` is `paths` at the strictly increasing positions `idx`. */
  predicate SubsequenceAt(w: seq<string>, paths: seq<string>, idx: seq<nat>)
  {
    && |idx| == |w|
    && (forall j :: 0 <= j < |idx| ==> idx[j] < |paths| && w[j] == paths[idx[j]])
    && (forall i, j :: 0 <= i < j < |idx| ==> idx[i] < idx[j])
  }

  /** The wrong paths are listed in element order: they are the paths at some strictly increasing positions. */
  lemma {:induction false} WrongOnesInOrder(eval: string -> Evaluation, paths: seq<string>)
    ensures exists idx :: SubsequenceAt(WrongOnes(eval, paths), paths, idx)
  {
    if paths == [] {
      assert SubsequenceAt(WrongOnes(eval, paths), paths, []);
    } else {
      var last := |paths| - 1;
      var init := paths[..last];
      WrongOnesInOrder(eval, init);
      var idx0 :| SubsequenceAt(WrongOnes(eval, init), init, idx0);
      if IsWrong(eval, paths[last]) {
        var idx := idx0 + [last];
        assert SubsequenceAt(WrongOnes(eval, paths), paths, idx);
      } else {
        assert SubsequenceAt(WrongOnes(eval, paths), paths, idx0);
      }
    }
  }

  /** Validation passes exactly when every element's text is present and its expression valid. */
  lemma ProcessPassesIff(parentElm: Option<string>, elements: seq<string>, eval: string -> Evaluation)
    ensures Verdict(WrongPaths(parentElm, elements, eval)).Pass? <==>
      forall k :: 0 <= k < |elements| ==> !IsWrong(eval, ElementPath(parentElm, elements[k]))
  {
    var paths := Paths(parentElm, elements);
    var w := WrongOnes(eval, paths);
    if w != [] {
      WrongOnesMembership(eval, paths, w[0]);
      var k :| 0 <= k < |paths| && paths[k] == w[0];
    } else {
      forall k | 0 <= k < |elements|
        ensures !IsWrong(eval, ElementPath(parentElm, elements[k]))
      {
        WrongOnesMembership(eval, paths, paths[k]);
      }
    }
  }

  /** A failure always carries E110 and a message that starts with the fixed prefix followed by the first wrong path. */
  lemma FailureCarriesE110(wrong: seq<string>)
    requires wrong != []
    ensures Verdict(wrong).Fail? && Verdict(wrong).error.code == E110
    ensures StartsWith(Verdict(wrong).error.message, MESSAGE_PREFIX + wrong[0])
  {
    JoinEnds(wrong, ", ");
    var j := Join(wrong, ", ");
    assert (MESSAGE_PREFIX + j)[..|MESSAGE_PREFIX + wrong[0]|] == MESSAGE_PREFIX + j[..|wrong[0]|];
  }

  /** Without a parent element the path of `elm` is "/" + elm. */
  lemma NoParentPath(elm: string)
    ensures ElementPath(None, elm) == "/" + elm
  {
  }
}
