/** Vocabulary shared by every part of the model: optional values, the HTTP
    methods and status codes the views deal in, the requesting party, and a
    sequence filter that keeps the order of a query set. */
module Common {

  datatype Option<T> = None | Some(value: T)

  /** The HTTP methods the views distinguish. */
  datatype Method = Get | Head | Options | Post | Put | Patch | Delete

  /** GET, HEAD and OPTIONS: the methods the permissions call read-only. */
  predicate IsSafe(m: Method) {
    m == Get || m == Head || m == Options
  }

  /** The status codes returned by the modelled views. */
  datatype Status = Ok | Created | NoContent | BadRequest | Unauthorized | Forbidden | NotFound | ServerError

  /** `request.user`: either the anonymous user or an authenticated user id. */
  datatype Viewer = Anonymous | User(id: nat)

  /** A query-set filter: the elements of `s` satisfying `p`, in their original order. */
  function Keep<T(==,!new)>(s: seq<T>, p: T -> bool): (r: seq<T>)
    ensures forall x :: x in r <==> x in s && p(x)
    ensures |r| <= |s|
    ensures multiset(r) <= multiset(s)
    ensures NoDuplicates(s) ==> NoDuplicates(r)
  {
    if |s| == 0 then []
    else
      assert s == [s[0]] + s[1..];
      assert NoDuplicates(s) ==> NoDuplicates(s[1..]) && s[0] !in s[1..] by {
        if NoDuplicates(s) {
          DropFirstNoDuplicates(s);
        }
      }
      if p(s[0]) then
        var t := Keep(s[1..], p);
        assert NoDuplicates(s) ==> s[0] !in t;
        ConcatNoDuplicates([s[0]], t);
        [s[0]] + t
      else Keep(s[1..], p)
  }

  /** Keeping the elements that all satisfy the filter keeps the whole sequence. */
  lemma {:induction false} KeepAll<T(!new)>(s: seq<T>, p: T -> bool)
    requires forall k :: 0 <= k < |s| ==> p(s[k])
    ensures Keep(s, p) == s
  {
    if |s| > 0 {
      KeepAll(s[1..], p);
    }
  }

  /** No element occurs twice. */
  predicate NoDuplicates<T(==)>(s: seq<T>) {
    forall i, j :: 0 <= i < j < |s| ==> s[i] != s[j]
  }

  /** In a duplicate-free sequence every element occurs at most once. */
  lemma {:induction false} NoDuplicatesCount<T>(s: seq<T>, x: T)
    requires NoDuplicates(s)
    ensures multiset(s)[x] == if x in s then 1 else 0
  {
    if |s| > 0 {
      assert s == [s[0]] + s[1..];
      assert NoDuplicates(s[1..]) by {
        forall i, j | 0 <= i < j < |s[1..]| ensures s[1..][i] != s[1..][j] {
          assert s[1..][i] == s[i + 1] && s[1..][j] == s[j + 1];
        }
      }
      NoDuplicatesCount(s[1..], x);
      if s[0] == x {
        forall k | 0 <= k < |s[1..]| ensures s[1..][k] != x {
          assert s[1..][k] == s[k + 1];
        }
      }
    }
  }

  /** Dropping the first element keeps a sequence duplicate-free, and the first element occurs nowhere else. */
  lemma DropFirstNoDuplicates<T>(s: seq<T>)
    requires NoDuplicates(s) && |s| > 0
    ensures NoDuplicates(s[1..]) && s[0] !in s[1..]
  {
    forall i, j | 0 <= i < j < |s[1..]| ensures s[1..][i] != s[1..][j] {
      assert s[1..][i] == s[i + 1] && s[1..][j] == s[j + 1];
    }
    forall k | 0 <= k < |s[1..]| ensures s[1..][k] != s[0] {
      assert s[1..][k] == s[k + 1];
    }
  }

  /** Two duplicate-free sequences with no element in common concatenate to a duplicate-free one. */
  lemma ConcatNoDuplicates<T>(a: seq<T>, b: seq<T>)
    ensures NoDuplicates(a) && NoDuplicates(b) && (forall k :: 0 <= k < |a| ==> a[k] !in b) ==>
              NoDuplicates(a + b)
  {
    if NoDuplicates(a) && NoDuplicates(b) && (forall k :: 0 <= k < |a| ==> a[k] !in b) {
      forall i, j | 0 <= i < j < |a + b| ensures (a + b)[i] != (a + b)[j] {
        if j < |a| {
        } else if i < |a| {
          assert (a + b)[j] == b[j - |a|];
        } else {
          assert (a + b)[i] == b[i - |a|] && (a + b)[j] == b[j - |a|];
        }
      }
    }
  }

  /** Appending an element that is absent keeps a sequence duplicate-free. */
  lemma AppendNoDuplicates<T>(s: seq<T>, x: T)
    requires NoDuplicates(s) && x !in s
    ensures NoDuplicates(s + [x])
  {
    forall i, j | 0 <= i < j < |s + [x]| ensures (s + [x])[i] != (s + [x])[j] {
      if j == |s| {
        assert (s + [x])[i] == s[i];
      }
    }
  }
}
