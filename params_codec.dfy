/** The text encoding of a test's parameter list: `CreateQuestion` stores it
    as `strings.Join(params, ",")` and `ReadQuestion` reads it back with
    `strings.Split(column, ",")`. Both follow Go's semantics for a one-byte,
    non-empty separator. */
module ParamsCodec {

  const Sep: char := ','

  /** Number of separators in `s`, as `strings.Count(s, ",")` gives it. */
  function CountSep(s: string): nat {
    multiset(s)[Sep]
  }

  /** Total number of separators inside the elements of `params`. */
  function SepsInside(params: seq<string>): nat {
    if params == [] then 0 else CountSep(params[0]) + SepsInside(params[1..])
  }

  /** The sum of the elements' lengths. */
  function TotalLength(params: seq<string>): nat {
    if params == [] then 0 else |params[0]| + TotalLength(params[1..])
  }

  /** A list survives the codec: it is not empty and no element holds the separator. */
  predicate Encodable(params: seq<string>) {
    params != [] && forall i :: 0 <= i < |params| ==> Sep !in params[i]
  }

  /** `strings.Join(params, ",")`: the elements with one separator between
      each adjacent pair; the empty list gives the empty string. */
  function Join(params: seq<string>): (s: string)
    ensures |s| == TotalLength(params) + (if params == [] then 0 else |params| - 1)
  {
    if |params| == 0 then ""
    else if |params| == 1 then params[0]
    else params[0] + [Sep] + Join(params[1..])
  }

  /** `strings.Index(s, ",")`: the position of the first separator, or -1. */
  function IndexSep(s: string): (i: int)
    ensures -1 <= i < |s|
    ensures i == -1 <==> Sep !in s
    ensures i >= 0 ==> s[i] == Sep && Sep !in s[..i]
  {
    if |s| == 0 then -1
    else if s[0] == Sep then 0
    else
      var j := IndexSep(s[1..]);
      assert s[1..][..if j < 0 then 0 else j] == s[1..if j < 0 then 1 else j + 1];
      if j < 0 then -1 else j + 1
  }

  /** `strings.Split(s, ",")`: the maximal separator-free pieces of `s`, in
      order; there is always at least one, the empty string gives `[""]`. */
  function Split(s: string): (parts: seq<string>)
    ensures |parts| >= 1
    ensures forall k :: 0 <= k < |parts| ==> Sep !in parts[k]
    decreases |s|
  {
    var i := IndexSep(s);
    if i < 0 then [s]
    else
      var rest := Split(s[i + 1..]);
      assert forall k :: 1 <= k < 1 + |rest| ==> ([s[..i]] + rest)[k] == rest[k - 1];
      [s[..i]] + rest
  }

  /** The first separator of `a + [Sep] + b` is the one placed after `a`
      when `a` holds none. */
  lemma IndexSepAfter(a: string, b: string)
    requires Sep !in a
    ensures IndexSep(a + [Sep] + b) == |a|
  {
    var s := a + [Sep] + b;
    assert s[|a|] == Sep;
    assert s[..|a|] == a;
  }

  /** Joining a list of two or more elements puts a separator after the first. */
  lemma JoinCons(p: string, tail: seq<string>)
    requires tail != []
    ensures Join([p] + tail) == p + [Sep] + Join(tail)
  {
  }

  /** Splitting at the first separator: the piece before it, then the rest split. */
  lemma SplitAtFirst(a: string, b: string)
    requires Sep !in a
    ensures Split(a + [Sep] + b) == [a] + Split(b)
  {
    var s := a + [Sep] + b;
    IndexSepAfter(a, b);
    assert s[..|a|] == a;
    assert s[|a| + 1..] == b;
  }

  /** Encoding a decoded column gives the column back, for every string. */
  lemma {:induction false} JoinSplit(s: string)
    ensures Join(Split(s)) == s
    decreases |s|
  {
    var i := IndexSep(s);
    if i >= 0 {
      var a, rest := s[..i], s[i + 1..];
      assert s == a + [Sep] + rest;
      SplitAtFirst(a, rest);
      JoinSplit(rest);
      JoinCons(a, Split(rest));
    }
  }

  /** Decoding an encoded list gives the list back when it is encodable. */
  lemma {:induction false} SplitJoin(params: seq<string>)
    requires Encodable(params)
    ensures Split(Join(params)) == params
  {
    var p := params[0];
    assert Sep !in p;
    if |params| > 1 {
      var tail := params[1..];
      assert Encodable(tail) by {
        forall k | 0 <= k < |tail| ensures Sep !in tail[k] {
          assert tail[k] == params[k + 1];
        }
      }
      assert params == [p] + tail;
      JoinCons(p, tail);
      SplitAtFirst(p, Join(tail));
      SplitJoin(tail);
    }
  }

  /** The round trip holds exactly for the encodable lists: the empty list
      and any list with a separator inside an element come back different. */
  lemma RoundTripIff(params: seq<string>)
    ensures Split(Join(params)) == params <==> Encodable(params)
  {
    if Encodable(params) {
      SplitJoin(params);
    } else if params != [] {
      var k :| 0 <= k < |params| && Sep in params[k];
    }
  }

  /** The empty list is stored as `""` and read back as the one-element list `[""]`. */
  lemma EmptyListComesBackAsOneEmptyParam()
    ensures Join([]) == ""
    ensures Split(Join([])) == [""]
    ensures Split(Join([])) != []
  {
  }

  /** A decoded column has one element more than it has separators. */
  lemma {:induction false} SplitLength(s: string)
    ensures |Split(s)| == 1 + CountSep(s)
    decreases |s|
  {
    var i := IndexSep(s);
    if i >= 0 {
      var a, rest := s[..i], s[i + 1..];
      assert s == a + [Sep] + rest;
      SplitAtFirst(a, rest);
      SplitLength(rest);
      assert multiset(s) == multiset(a) + multiset([Sep]) + multiset(rest);
      assert multiset(a)[Sep] == 0;
    }
  }

  /** The separators in a joined column: one between each adjacent pair, plus
      every separator inside an element. */
  lemma {:induction false} JoinCount(params: seq<string>)
    requires params != []
    ensures CountSep(Join(params)) == |params| - 1 + SepsInside(params)
  {
    if |params| > 1 {
      JoinCount(params[1..]);
      var s := params[0] + [Sep] + Join(params[1..]);
      assert multiset(s) == multiset(params[0]) + multiset([Sep]) + multiset(Join(params[1..]));
    } else {
      assert params[1..] == [];
    }
  }

  /** Each separator inside a parameter adds one element on the way back, so a
      non-empty list comes back longer exactly when some element holds a separator. */
  lemma SplitJoinLength(params: seq<string>)
    requires params != []
    ensures |Split(Join(params))| == |params| + SepsInside(params)
    ensures |Split(Join(params))| > |params| <==> exists k :: 0 <= k < |params| && Sep in params[k]
  {
    SplitLength(Join(params));
    JoinCount(params);
    SepsInsidePositive(params);
  }

  lemma {:induction false} SepsInsidePositive(params: seq<string>)
    ensures SepsInside(params) > 0 <==> exists k :: 0 <= k < |params| && Sep in params[k]
  {
    if params != [] {
      SepsInsidePositive(params[1..]);
      if Sep in params[0] {
        assert CountSep(params[0]) > 0;
      } else {
        assert CountSep(params[0]) == 0;
        if exists k :: 0 <= k < |params| && Sep in params[k] {
          var k :| 0 <= k < |params| && Sep in params[k];
          assert params[1..][k - 1] == params[k];
        }
      }
      if exists k :: 0 <= k < |params[1..]| && Sep in params[1..][k] {
        var k :| 0 <= k < |params[1..]| && Sep in params[1..][k];
        assert params[k + 1] == params[1..][k];
      }
    }
  }
}
