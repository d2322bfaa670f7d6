/** The hosts a blocked user still reaches (pkg/mitm/bypass.go): patterns are compiled to text
    suffixes, but mean whole labels of a domain name. */
module Passthrough {
  import opened ClockText

  /** The dot-separated labels of a name, outermost last. */
  function Labels(s: string): (r: seq<string>)
    ensures |r| > 0
    decreases |s|
  {
    var dot := IndexOf(s, '.');
    if dot == |s| then [s] else [s[..dot]] + Labels(s[dot + 1..])
  }

  function Join(labels: seq<string>): string
    requires |labels| > 0
  {
    if |labels| == 1 then labels[0] else labels[0] + "." + Join(labels[1..])
  }

  predicate EndsWith<T(==)>(a: seq<T>, b: seq<T>) {
    |b| <= |a| && a[|a| - |b|..] == b
  }

  /** A normalized pattern: a name, or "*." and a name that stands for it and all below it. */
  predicate Matches(p: string, host: string) {
    if "*." <= p then EndsWith(Labels(host), Labels(p[2..])) else p != "" && host == p
  }

  // ---------------------------------------------------------------- text suffixes are label suffixes

  lemma {:induction false} JoinLabels(s: string)
    ensures Join(Labels(s)) == s
    decreases |s|
  {
    var dot := IndexOf(s, '.');
    if dot < |s| {
      JoinLabels(s[dot + 1..]);
      assert Labels(s)[1..] == Labels(s[dot + 1..]);
      assert s == s[..dot] + "." + s[dot + 1..];
    }
  }

  lemma Regroup(x: string, y: string, z: string)
    ensures x + (y + z) == (x + y) + z
  {}

  lemma {:induction false} JoinConcat(a: seq<string>, b: seq<string>)
    requires |a| > 0 && |b| > 0
    ensures Join(a + b) == Join(a) + ("." + Join(b))
  {
    if |a| == 1 {
      assert (a + b)[1..] == b;
    } else {
      JoinConcat(a[1..], b);
      assert (a + b)[1..] == a[1..] + b;
      Regroup(a[0] + ".", Join(a[1..]), "." + Join(b));
    }
  }

  lemma {:induction false} LabelsConcat(x: string, y: string)
    ensures Labels(x + "." + y) == Labels(x) + Labels(y)
    decreases |x|
  {
    var s, dot := x + "." + y, IndexOf(x, '.');
    assert s[..dot] == x[..dot];
    FirstAt(s, '.', dot);
    if dot == |x| {
      assert s[dot + 1..] == y && x[..dot] == x;
    } else {
      assert s[dot + 1..] == x[dot + 1..] + "." + y;
      LabelsConcat(x[dot + 1..], y);
    }
  }

  lemma LabelsEnd(x: string, base: string)
    ensures EndsWith(Labels(x + "." + base), Labels(base))
  {
    LabelsConcat(x, base);
  }

  lemma EndsAfter(x: string, suffix: string)
    ensures EndsWith(x + suffix, suffix)
  {}

  lemma JoinedEnd(first: seq<string>, base: string)
    requires |first| > 0
    ensures EndsWith(Join(first + Labels(base)), "." + base)
  {
    JoinConcat(first, Labels(base));
    JoinLabels(base);
    EndsAfter(Join(first), "." + base);
  }

  lemma EndFromLabels(host: string, base: string)
    requires EndsWith(Labels(host), Labels(base))
    ensures host == base || EndsWith(host, "." + base)
  {
    var labels, k := Labels(host), |Labels(host)| - |Labels(base)|;
    JoinLabels(host);
    if k == 0 {
      JoinLabels(base);
      assert labels[0..] == labels;
    } else {
      assert labels == labels[..k] + Labels(base);
      JoinedEnd(labels[..k], base);
    }
  }

  /** A name is the base or ends in a dot and the base exactly when its labels end with the
      base's labels; in particular no label is matched in part. */
  lemma LabelTheorem(host: string, base: string)
    ensures host == base || EndsWith(host, "." + base) <==> EndsWith(Labels(host), Labels(base))
  {
    if EndsWith(host, "." + base) {
      var x := host[..|host| - |base| - 1];
      assert host == x + "." + base;
      LabelsEnd(x, base);
    }
    if EndsWith(Labels(host), Labels(base)) {
      EndFromLabels(host, base);
    }
  }

  // ---------------------------------------------------------------- compiling and looking up

  /** Found among the exact hosts, or ending in one of the suffixes. */
  ghost predicate Found(exact: set<string>, suffixes: seq<string>, host: string) {
    host in exact || exists suffix <- suffixes :: EndsWith(host, suffix)
  }

  lemma FoundMore(exact: set<string>, suffixes: seq<string>, base: string, host: string)
    ensures Found(exact + {base}, suffixes + ["." + base], host) <==>
              Found(exact, suffixes, host) || EndsWith(Labels(host), Labels(base))
  {
    LabelTheorem(host, base);
    assert forall suffix :: suffix in suffixes + ["." + base] <==> suffix in suffixes || suffix == "." + base;
  }

  /** normalize is the normalization of names, which is not modelled. */
  method CompilePatterns(patterns: seq<string>, normalize: string -> string)
    returns (exact: set<string>, suffixes: seq<string>)
    ensures forall host :: host != "" ==>
              (Found(exact, suffixes, host) <==> exists p <- patterns :: Matches(normalize(p), host))
  {
    exact, suffixes := {}, [];
    for i := 0 to |patterns|
      invariant forall host :: host != "" ==>
                  (Found(exact, suffixes, host) <==> exists p <- patterns[..i] :: Matches(normalize(p), host))
    {
      var p := normalize(patterns[i]);
      ghost var exact0, suffixes0 := exact, suffixes;
      assert patterns[..i + 1] == patterns[..i] + [patterns[i]];
      if p == "" {
      } else if "*." <= p {
        var base := p[2..];
        suffixes := suffixes + ["." + base];
        exact := exact + {base};
        forall host {
          FoundMore(exact0, suffixes0, base, host);
        }
      } else {
        exact := exact + {p};
      }
      assert forall host :: host != "" ==>
          (Found(exact, suffixes, host) <==> Found(exact0, suffixes0, host) || Matches(p, host));
    }
    assert patterns[..|patterns|] == patterns;
  }

  method IsPassthrough(exact: set<string>, suffixes: seq<string>, host: string, normalize: string -> string)
    returns (r: bool)
    ensures r <==> normalize(host) != "" && Found(exact, suffixes, normalize(host))
  {
    var h := normalize(host);
    if h == "" {
      return false;
    }
    if h in exact {
      return true;
    }
    for i := 0 to |suffixes|
      invariant forall k :: 0 <= k < i ==> !EndsWith(h, suffixes[k])
    {
      if EndsWith(h, suffixes[i]) {
        return true;
      }
    }
    return false;
  }

  /** Whatever the patterns, a blocked user's host passes exactly if its normalized name is
      one of the names or lies, label by label, at or below one of the wildcards. */
  method Passes(patterns: seq<string>, host: string, normalize: string -> string) returns (r: bool)
    ensures r <==> normalize(host) != "" && exists p <- patterns :: Matches(normalize(p), normalize(host))
  {
    var exact, suffixes := CompilePatterns(patterns, normalize);
    r := IsPassthrough(exact, suffixes, host, normalize);
  }
}
