/** Shared vocabulary of the recipe backend model: optional values, the ways an
    operation can fail, and the small string and sequence helpers that several
    services use. */
module Common {

  datatype Option<+T> = None | Some(value: T)

  /** Unchecked Java exceptions that escape a service method. The generic
      exception mapper turns every one of them into a 500 response. */
  datatype Fault =
    | NullPointer       // a null reference was dereferenced
    | NumberFormat      // Long.valueOf / Long.parseLong refused the token subject
    | IllegalArgument   // a library refused an argument (Page.of, BufferedImage)
    | RasterFormat      // BufferedImage.getSubimage refused the crop rectangle

  /** How a service call ends when it does not return normally. */
  datatype Failure =
    | Api(code: int, message: string)     // ApiException and its subclasses
    | Rejected(violations: multiset<string>)  // bean validation refused a request (400);
                                            // its messages come in no particular order
    | Unchecked(fault: Fault)             // any other exception (500)

  datatype Result<+T> = Ok(value: T) | Err(failure: Failure)

  /** The HTTP status the exception mappers give a failure. */
  function Status(f: Failure): (code: int)
    ensures f.Api? ==> code == f.code
    ensures f.Rejected? ==> code == 400
    ensures f.Unchecked? ==> code == 500
  {
    match f
    case Api(c, _) => c
    case Rejected(_) => 400
    case Unchecked(_) => 500
  }

  /** Character.isWhitespace: the Unicode space separators other than the
      non-breaking ones, and the ASCII control characters that Java counts. */
  predicate IsWhitespace(c: char)
  {
    || c == ' ' || c == '\t' || c == '\n' || c == '\U{B}' || c == '\U{C}' || c == '\r'
    || ('\U{1C}' <= c <= '\U{1F}')
    || c == '\U{1680}' || ('\U{2000}' <= c <= '\U{2006}') || ('\U{2008}' <= c <= '\U{200A}')
    || c == '\U{2028}' || c == '\U{2029}' || c == '\U{205F}' || c == '\U{3000}'
  }

  /** String.isBlank: empty or only whitespace. */
  predicate IsBlank(s: string)
  {
    forall i :: 0 <= i < |s| ==> IsWhitespace(s[i])
  }

  /** The guard `s != null && !s.isBlank()` that partial updates use. */
  predicate Provided(s: Option<string>)
  {
    s.Some? && !IsBlank(s.value)
  }

  /** The index of the first element satisfying p, as `find(...).firstResultOptional()`
      returns the first row of a query. */
  function FirstWhere<T>(xs: seq<T>, p: T -> bool): (r: Option<nat>)
    ensures r.Some? ==> r.value < |xs| && p(xs[r.value])
    ensures r.Some? ==> forall j :: 0 <= j < r.value ==> !p(xs[j])
    ensures r.None? <==> forall j :: 0 <= j < |xs| ==> !p(xs[j])
  {
    if |xs| == 0 then None
    else if p(xs[0]) then Some(0)
    else
      var rest := FirstWhere(xs[1..], p);
      if rest.None? then None else Some(rest.value + 1)
  }

  /** The elements of xs satisfying p, in their original order (a WHERE clause). */
  function Filter<T(!new)>(xs: seq<T>, p: T -> bool): (r: seq<T>)
    ensures |r| <= |xs|
    ensures forall x :: multiset(r)[x] == if p(x) then multiset(xs)[x] else 0
  {
    if |xs| == 0 then []
    else
      var rest := Filter(xs[1..], p);
      assert xs == [xs[0]] + xs[1..];
      if p(xs[0]) then [xs[0]] + rest else rest
  }

  /** xs without its element at index i. */
  function RemoveAt<T>(xs: seq<T>, i: nat): (r: seq<T>)
    requires i < |xs|
    ensures |r| == |xs| - 1
    ensures forall j {:trigger r[j]} :: 0 <= j < i ==> r[j] == xs[j]
    ensures forall j {:trigger r[j]} :: i <= j < |r| ==> r[j] == xs[j + 1]
  {
    xs[..i] + xs[i + 1..]
  }

  /** Removing an element that fails p shifts the first match by one when it
      came after the removed position, and keeps it otherwise. */
  lemma FirstWhereAfterRemoval<T>(xs: seq<T>, i: nat, p: T -> bool)
    requires i < |xs| && !p(xs[i])
    ensures var f := FirstWhere(xs, p);
      && FirstWhere(RemoveAt(xs, i), p) == (if f.None? then None else Some(if f.value < i then f.value else f.value - 1))
      && (f.Some? ==> f.value != i && RemoveAt(xs, i)[if f.value < i then f.value else f.value - 1] == xs[f.value])
  {
    var after := RemoveAt(xs, i);
    var f := FirstWhere(xs, p);
    var r := FirstWhere(after, p);
    if f.None? {
      forall j | 0 <= j < |after|
        ensures !p(after[j])
      {
        assert after[j] == xs[if j < i then j else j + 1];
      }
      assert r == None;
    } else {
      var k := f.value;
      var k' := if k < i then k else k - 1;
      assert after[k'] == xs[k];
      assert forall j :: 0 <= j < k' ==> after[j] == xs[if j < i then j else j + 1];
      assert r.value == k';
    }
  }
}
