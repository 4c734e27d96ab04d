/** The decisions the GET, PUT and DELETE handlers make before touching
    the file system, and the listing mode chosen from the query arguments. */
module Dispatch {

  import opened Wrappers
  import opened PyStr
  import opened Exceptions
  import opened Headers

  /** The file-system operation a handler goes on to perform. */
  datatype Action =
    | ListObjects(recursive: bool, prefix: string)  // process_object_list
    | DownloadObject
    | CreatePrefix
    | CreateObject
    | DeletePrefix
    | DeleteObject
    | Unrouted  // no view serves this method on this path; the framework answers

  /** `process_object_list`: delimiter `''` lists recursively, `'/'` one level. */
  function ProcessObjectList(args: seq<(string, string)>): (r: Result<Action, Error>)
    ensures r.Success? <==> ArgGet(args, "delimiter", "") in {"", "/"}
    ensures r.Failure? ==> r.error == NotImplemented
    ensures r.Success? ==> r.value.ListObjects? && r.value.prefix == ArgGet(args, "prefix", "")
    ensures r.Success? ==> (r.value.recursive <==> ArgGet(args, "delimiter", "") == "")
  {
    var delimiter := ArgGet(args, "delimiter", "");
    var prefix := ArgGet(args, "prefix", "");
    if delimiter == "" then Success(ListObjects(true, prefix))
    else if delimiter == "/" then Success(ListObjects(false, prefix))
    else Failure(NotImplemented)
  }

  /** A request naming no delimiter and no prefix lists the whole bucket recursively. */
  lemma ListingDefaults(args: seq<(string, string)>)
    requires forall i :: 0 <= i < |args| ==> args[i].0 != "delimiter" && args[i].0 != "prefix"
    ensures ProcessObjectList(args) == Success(ListObjects(true, ""))
  {
  }

  /** `get_request_with_path`: an empty resource path lists, any other downloads. */
  function GetRequestWithPath(resourcePath: string, args: seq<(string, string)>): (r: Result<Action, Fault>)
    ensures resourcePath != "" ==> r == Success(DownloadObject)
    ensures resourcePath == "" ==> (r.Success? ==> r.value.ListObjects?)
    ensures resourcePath == "" ==> (r.Failure? <==> ArgGet(args, "delimiter", "") !in {"", "/"})
    ensures resourcePath == "" && ProcessObjectList(args).Success? ==> r == Success(ProcessObjectList(args).value)
    ensures resourcePath == "" && ProcessObjectList(args).Failure? ==> r == Failure(Raised(NotImplemented))
  {
    if resourcePath == "" then
      match ProcessObjectList(args)
      case Success(a) => Success(a)
      case Failure(e) => Failure(Raised(e))
    else Success(DownloadObject)
  }

  /** `resource_path[-1] == '/'`, with the IndexError of an empty path. */
  function EndsWithSlash(resourcePath: string): (r: Result<bool, Fault>)
    ensures resourcePath == "" <==> r == Failure(Uncaught(IndexError))
    ensures r.Success? ==> (r.value <==> resourcePath[|resourcePath| - 1] == '/')
  {
    if resourcePath == "" then Failure(Uncaught(IndexError))
    else Success(resourcePath[|resourcePath| - 1] == '/')
  }

  /** `int(headers.get('Content-Length'))`: a missing header is `int(None)`,
      a TypeError; a malformed one a ValueError. */
  function ContentLength(h: seq<Header>): (r: Result<int, Fault>)
    ensures Lookup(h, "Content-Length").None? ==> r == Failure(Uncaught(TypeError))
    ensures Lookup(h, "Content-Length").Some? ==>
      (r.Success? <==> ParseInt(Lookup(h, "Content-Length").value).Some?)
    ensures Lookup(h, "Content-Length").Some? && r.Failure? ==> r.error == Uncaught(ValueError)
    ensures r.Success? ==> ParseInt(Lookup(h, "Content-Length").value) == Some(r.value)
  {
    match Lookup(h, "Content-Length")
    case None => Failure(Uncaught(TypeError))
    case Some(v) =>
      match ParseInt(v)
      case None => Failure(Uncaught(ValueError))
      case Some(n) => Success(n)
  }

  /** A Content-Length holding a character that is not white space, a
      sign or a digit is a ValueError. */
  lemma ContentLengthNotANumber(h: seq<Header>, v: string, i: nat)
    requires Lookup(h, "Content-Length") == Some(v)
    requires i < |v| && !IsDigit(v[i]) && !IsSpace(v[i]) && v[i] != '+' && v[i] != '-'
    ensures ContentLength(h) == Failure(Uncaught(ValueError))
  {
    NotANumber(v, i);
  }

  /** `put_request_with_path`: the declared length must equal the body's,
      then a trailing `/` creates a prefix and anything else an object. */
  function PutRequestWithPath(h: seq<Header>, bodyLength: nat, resourcePath: string): (r: Result<Action, Fault>)
    ensures ContentLength(h).Failure? ==> r == Failure(ContentLength(h).error)
    ensures ContentLength(h).Success? && ContentLength(h).value != bodyLength ==>
      r == Failure(Raised(MissingContentLength))
    ensures ContentLength(h) == Success(bodyLength as int) ==>
      (r.Success? <==> resourcePath != "") &&
      (r.Success? ==> r.value == if resourcePath[|resourcePath| - 1] == '/' then CreatePrefix else CreateObject)
  {
    var declared :- ContentLength(h);
    if declared != bodyLength then Failure(Raised(MissingContentLength))
    else
      var isPrefix :- EndsWithSlash(resourcePath);
      Success(if isPrefix then CreatePrefix else CreateObject)
  }

  /** `delete_request_with_path`: a trailing `/` deletes a prefix, anything else an object. */
  function DeleteRequestWithPath(resourcePath: string): (r: Result<Action, Fault>)
    ensures resourcePath == "" ==> r == Failure(Uncaught(IndexError))
    ensures resourcePath != "" ==>
      r == Success(if resourcePath[|resourcePath| - 1] == '/' then DeletePrefix else DeleteObject)
  {
    var isPrefix :- EndsWithSlash(resourcePath);
    Success(if isPrefix then DeletePrefix else DeleteObject)
  }

  /** A PUT whose Content-Length is the decimal body length proceeds to the
      prefix-or-object choice. */
  lemma PutWellFormed(h: seq<Header>, bodyLength: nat, resourcePath: string)
    requires Lookup(h, "Content-Length") == Some(Decimal(bodyLength))
    requires resourcePath != ""
    ensures PutRequestWithPath(h, bodyLength, resourcePath) ==
      Success(if resourcePath[|resourcePath| - 1] == '/' then CreatePrefix else CreateObject)
  {
    ParseDecimal(bodyLength);
  }

  /** The length check comes first: a mismatch is reported even where the
      prefix test would fail on an empty resource path. */
  lemma PutLengthCheckedFirst(h: seq<Header>, bodyLength: nat, declared: nat)
    requires Lookup(h, "Content-Length") == Some(Decimal(declared))
    requires declared != bodyLength
    ensures PutRequestWithPath(h, bodyLength, "") == Failure(Raised(MissingContentLength))
  {
    ParseDecimal(declared);
  }

  /** With the length right, an empty resource path fails on `resource_path[-1]`. */
  lemma PutOnEmptyResource(h: seq<Header>, bodyLength: nat)
    requires Lookup(h, "Content-Length") == Some(Decimal(bodyLength))
    ensures PutRequestWithPath(h, bodyLength, "") == Failure(Uncaught(IndexError))
  {
    ParseDecimal(bodyLength);
  }
}
