/** Splitting text at a separator and dropping the empty pieces: the URL path splitter of the
    HTTP API and the key parser of the Redis store. */
module Splitting {
  /** The pieces of `p` at `sep`, with `cur` already read of the first one. */
  function Scan(p: string, sep: char, cur: string): seq<string>
    decreases |p|
  {
    if p == "" then (if cur == "" then [] else [cur])
    else if p[0] != sep then Scan(p[1..], sep, cur + [p[0]])
    else if cur == "" then Scan(p[1..], sep, "")
    else [cur] + Scan(p[1..], sep, "")
  }

  function Fields(p: string, sep: char): seq<string> {
    Scan(p, sep, "")
  }

  // ----- What splitting means -----

  predicate Clean(w: string, sep: char) {
    w != "" && sep !in w
  }

  predicate AllClean(parts: seq<string>, sep: char) {
    forall k :: 0 <= k < |parts| ==> Clean(parts[k], sep)
  }

  /** `gaps` are runs of separators; those between two parts are not empty. */
  predicate Separates(gaps: seq<string>, n: nat, sep: char) {
    && |gaps| == n + 1
    && (forall k, i :: 0 <= k < |gaps| && 0 <= i < |gaps[k]| ==> gaps[k][i] == sep)
    && forall k :: 0 < k < n ==> gaps[k] != ""
  }

  /** The text that alternates gaps and parts. */
  function Weave(gaps: seq<string>, parts: seq<string>): string
    requires |gaps| == |parts| + 1
    decreases |parts|
  {
    if parts == [] then gaps[0] else gaps[0] + parts[0] + Weave(gaps[1..], parts[1..])
  }

  lemma {:induction false} ScanGap(gap: string, rest: string, sep: char)
    requires forall i :: 0 <= i < |gap| ==> gap[i] == sep
    ensures Fields(gap + rest, sep) == Fields(rest, sep)
  {
    if gap == "" {
      assert gap + rest == rest;
    } else {
      assert (gap + rest)[1..] == gap[1..] + rest;
      ScanGap(gap[1..], rest, sep);
    }
  }

  lemma {:induction false} ScanPart(part: string, rest: string, sep: char, cur: string)
    requires sep !in part
    ensures Scan(part + rest, sep, cur) == Scan(rest, sep, cur + part)
  {
    if part == "" {
      assert part + rest == rest && cur + part == cur;
    } else {
      assert (part + rest)[1..] == part[1..] + rest;
      assert cur + [part[0]] + part[1..] == cur + part;
      ScanPart(part[1..], rest, sep, cur + [part[0]]);
    }
  }

  /** Splitting distributes over a separator. */
  lemma {:induction false} ScanConcat(a: string, b: string, sep: char, cur: string)
    ensures Scan(a + [sep] + b, sep, cur) == Scan(a, sep, cur) + Fields(b, sep)
    decreases |a|
  {
    var p := a + [sep] + b;
    if a == "" {
      assert p == [sep] + b && p[1..] == b;
    } else {
      assert p[1..] == a[1..] + [sep] + b;
      ScanConcat(a[1..], b, sep, if a[0] == sep then "" else cur + [a[0]]);
    }
  }

  /** The number of pieces depends only on where the separators are. */
  lemma {:induction false} ScanCount(p: string, q: string, sep: char, cur: string, cur': string)
    requires |p| == |q| && |cur| == |cur'|
    requires forall i :: 0 <= i < |p| ==> (p[i] == sep <==> q[i] == sep)
    ensures |Scan(p, sep, cur)| == |Scan(q, sep, cur')|
    decreases |p|
  {
    if p == "" {
    } else if p[0] == sep {
      ScanCount(p[1..], q[1..], sep, "", "");
    } else {
      ScanCount(p[1..], q[1..], sep, cur + [p[0]], cur' + [q[0]]);
    }
  }

  lemma {:induction false} ScanHasCur(p: string, sep: char, cur: string)
    requires cur != ""
    ensures Scan(p, sep, cur) != []
    decreases |p|
  {
    if p == "" || p[0] == sep {
    } else {
      ScanHasCur(p[1..], sep, cur + [p[0]]);
    }
  }

  /** A text with anything but separators in it has a piece. */
  lemma {:induction false} ScanFinds(p: string, sep: char, cur: string, k: nat)
    requires k < |p| && p[k] != sep
    ensures Scan(p, sep, cur) != []
    decreases |p|
  {
    if k == 0 {
      ScanHasCur(p[1..], sep, cur + [p[0]]);
    } else {
      ScanFinds(p[1..], sep, if p[0] == sep then "" else cur + [p[0]], k - 1);
    }
  }

  lemma FieldsOfClean(w: string, sep: char)
    requires Clean(w, sep)
    ensures Fields(w, sep) == [w]
  {
    ScanPart(w, "", sep, "");
    assert w + "" == w && "" + w == w;
  }

  lemma WidenFirstGap(gaps: seq<string>, parts: seq<string>, sep: char) returns (wide: seq<string>)
    requires Separates(gaps, |parts|, sep)
    ensures Separates(wide, |parts|, sep) && wide[0] != ""
    ensures Weave(wide, parts) == [sep] + Weave(gaps, parts)
  {
    wide := [[sep] + gaps[0]] + gaps[1..];
    assert wide[1..] == gaps[1..];
    assert forall k :: 0 < k < |gaps| ==> wide[k] == gaps[k];
  }

  lemma PrependPart(gaps: seq<string>, parts: seq<string>, w: string, sep: char)
    requires Separates(gaps, |parts|, sep) && (gaps[0] != "" || parts == [])
    ensures Separates([""] + gaps, |parts| + 1, sep)
    ensures Weave([""] + gaps, [w] + parts) == w + Weave(gaps, parts)
  {
    var longer := [""] + gaps;
    assert longer[1..] == gaps && ([w] + parts)[1..] == parts;
    assert forall k :: 0 <= k < |gaps| ==> longer[k + 1] == gaps[k];
    assert "" + w == w;
  }

  /** Every result part is non-empty and separator-free, and no character other than separators
      is lost: the text is the parts woven with gaps. */
  lemma {:induction false} FieldsDecompose(p: string, sep: char, cur: string) returns (gaps: seq<string>)
    requires sep !in cur
    ensures AllClean(Scan(p, sep, cur), sep)
    ensures Separates(gaps, |Scan(p, sep, cur)|, sep)
    ensures Weave(gaps, Scan(p, sep, cur)) == cur + p
    ensures cur != "" ==> gaps[0] == ""
    decreases |p|
  {
    var parts := Scan(p, sep, cur);
    if p == "" {
      gaps := if cur == "" then [""] else ["", ""];
      if cur != "" {
        assert parts[1..] == [] && Weave(gaps[1..], parts[1..]) == "";
      }
      assert cur + p == cur;
    } else if p[0] != sep {
      gaps := FieldsDecompose(p[1..], sep, cur + [p[0]]);
      assert cur + [p[0]] + p[1..] == cur + p;
    } else {
      var gaps' := FieldsDecompose(p[1..], sep, "");
      var parts' := Scan(p[1..], sep, "");
      assert "" + p[1..] == p[1..] && [sep] + p[1..] == p;
      gaps := WidenFirstGap(gaps', parts', sep);
      if cur == "" {
        assert cur + p == p;
      } else {
        PrependPart(gaps, parts', cur, sep);
        gaps := [""] + gaps;
      }
    }
  }

  lemma FieldsAreClean(p: string, sep: char)
    ensures AllClean(Fields(p, sep), sep)
  {
    var _ := FieldsDecompose(p, sep, "");
  }

  lemma WeaveStartsWithGap(gaps: seq<string>, parts: seq<string>, sep: char)
    requires Separates(gaps, |parts|, sep) && AllClean(parts, sep)
    requires gaps[0] != "" || parts == []
    ensures Weave(gaps, parts) == "" || Weave(gaps, parts)[0] == sep
  {
  }

  /** Any list of non-empty, separator-free parts is recovered from any text that puts
      separators around them: extra ones at either end or in between change nothing. */
  lemma {:induction false} FieldsRecoverParts(gaps: seq<string>, parts: seq<string>, sep: char)
    requires Separates(gaps, |parts|, sep) && AllClean(parts, sep)
    ensures Fields(Weave(gaps, parts), sep) == parts
    decreases |parts|
  {
    if parts == [] {
      assert gaps[0] + "" == gaps[0];
      ScanGap(gaps[0], "", sep);
    } else {
      var w, gaps', parts' := parts[0], gaps[1..], parts[1..];
      var rest := Weave(gaps', parts');
      assert Weave(gaps, parts) == gaps[0] + (w + rest);
      ScanGap(gaps[0], w + rest, sep);
      ScanPart(w, rest, sep, "");
      assert "" + w == w;
      assert Separates(gaps', |parts'|, sep) && AllClean(parts', sep);
      if parts' != [] {
        assert gaps'[0] == gaps[1] != "";
      }
      WeaveStartsWithGap(gaps', parts', sep);
      assert Scan(rest, sep, w) == [w] + Fields(rest, sep);
      FieldsRecoverParts(gaps', parts', sep);
    }
  }

  function JoinGaps(n: nat, sep: char): seq<string> {
    seq(n + 1, k => if 0 < k < n then [sep] else "")
  }

  function Join(parts: seq<string>, sep: char): string {
    Weave(JoinGaps(|parts|, sep), parts)
  }

  /** Splitting the re-joined pieces changes nothing. */
  lemma SplitOfJoin(p: string, sep: char)
    ensures Fields(Join(Fields(p, sep), sep), sep) == Fields(p, sep)
  {
    var _ := FieldsDecompose(p, sep, "");
    FieldsRecoverParts(JoinGaps(|Fields(p, sep)|, sep), Fields(p, sep), sep);
  }

  // ----- The two loops -----

  /** The loop both share: collect characters, flush at a separator when there are any. */
  method SplitLoop(p: string, sep: char) returns (parts: seq<string>)
    ensures parts == Fields(p, sep) && AllClean(parts, sep)
  {
    parts := [];
    var cur := "";
    for i := 0 to |p|
      invariant parts + Scan(p[i..], sep, cur) == Fields(p, sep)
    {
      assert p[i..][1..] == p[i + 1..];
      if p[i] == sep {
        if |cur| > 0 {
          parts := parts + [cur];
          cur := "";
        }
      } else {
        cur := cur + [p[i]];
      }
    }
    if |cur| > 0 {
      parts := parts + [cur];
    }
    ghost var _ := FieldsDecompose(p, sep, "");
  }

  /** `split` of the HTTP API: trims the leading slashes, all of them and nothing else, whatever
      the separator. */
  method Split(path: string, sep: char) returns (parts: seq<string>)
    ensures AllClean(parts, sep)
    ensures exists k :: 0 <= k <= |path| && (forall i :: 0 <= i < k ==> path[i] == '/')
                        && (k < |path| ==> path[k] != '/') && parts == Fields(path[k..], sep)
    ensures sep == '/' ==> parts == Fields(path, '/')
  {
    var p := path;
    ghost var k := 0;
    while |p| > 0 && p[0] == '/'
      invariant 0 <= k <= |path| && p == path[k..]
      invariant forall i :: 0 <= i < k ==> path[i] == '/'
      decreases |p|
    {
      p := p[1..];
      k := k + 1;
    }
    if sep == '/' {
      ScanGap(path[..k], path[k..], '/');
      assert path[..k] + path[k..] == path;
    }
    parts := SplitLoop(p, sep);
  }

  /** `redisKeyParts`. */
  method KeyParts(key: string) returns (parts: seq<string>)
    ensures parts == Fields(key, ':') && AllClean(parts, ':')
  {
    parts := SplitLoop(key, ':');
  }
}
