/** The metrics service: the path of a check's metrics query, with the optional `from`
    and `to` parameters. */
module Metrics {

  import opened Checks
  import opened Query

  /** The part of the path that is always there. */
  function BasePath(token: string, group: string): string {
    PathForToken(token) + "/metrics?group=" + group
  }

  /** The `&from=` segment, present exactly when `from` is not empty. */
  function FromSegment(from: string): (seg: string)
    ensures seg == "" <==> from == ""
    ensures from != "" ==> |seg| == 6 + |from| && seg[..6] == "&from=" && seg[6..] == from
  {
    if from != "" then "&from=" + from else ""
  }

  /** The `&to=` segment, present exactly when `to` is not empty. */
  function ToSegment(to: string): (seg: string)
    ensures seg == "" <==> to == ""
    ensures to != "" ==> |seg| == 4 + |to| && seg[..4] == "&to=" && seg[4..] == to
  {
    if to != "" then "&to=" + to else ""
  }

  /** The path requested by `MetricService.List(token, group, from, to)`. That function puts
      the token into the format string of `fmt.Sprintf`, so the token must hold no `%` for the
      result to be plain concatenation. */
  function ListPath(token: string, group: string, from: string, to: string): (path: string)
    requires '%' !in token
  {
    BasePath(token, group) + FromSegment(from) + ToSegment(to)
  }

  /** Builds the path as `MetricService.List` does: the base, then each optional parameter
      appended in turn. */
  method BuildListPath(token: string, group: string, from: string, to: string) returns (path: string)
    requires '%' !in token
    ensures path == ListPath(token, group, from, to)
  {
    path := PathForToken(token) + "/metrics?group=" + group;
    if from != "" {
      path := path + "&from=" + from;
    }
    if to != "" {
      path := path + "&to=" + to;
    }
  }

  /** The shape of the path: it begins with the base; the `from` segment, when present,
      follows the base and carries `from` verbatim; the `to` segment, when present, ends the
      path and carries `to` verbatim; with neither, the path is the base itself. */
  lemma ListPathShape(token: string, group: string, from: string, to: string)
    requires '%' !in token
    ensures var path := ListPath(token, group, from, to);
      var b := |BasePath(token, group)|;
      var f := if from != "" then 6 + |from| else 0;
      && |path| == b + f + (if to != "" then 4 + |to| else 0)
      && path[..b] == "checks/" + token + "/metrics?group=" + group
      && (from != "" ==> path[b..b + 6] == "&from=" && path[b + 6..b + f] == from)
      && (to != "" ==> path[b + f..b + f + 4] == "&to=" && path[b + f + 4..] == to)
      && (to == "" ==> path[..b + f] == path)
      && (from == "" && to == "" ==> path == BasePath(token, group))
  {
  }

  /** The path splits at its first `?`, the one that ends "/metrics". */
  lemma ListPathAtQuestionMark(token: string, group: string, from: string, to: string)
    requires '%' !in token && '?' !in token
    ensures var head := "checks/" + token + "/metrics";
      && '?' !in head
      && ListPath(token, group, from, to) == head + ['?'] + ("group=" + group + FromSegment(from) + ToSegment(to))
  {
  }

  /** The query of the resolved URL: everything after the first `?`, when no `#` starts a
      fragment. */
  lemma ListPathQueryText(token: string, group: string, from: string, to: string)
    requires '%' !in token && '?' !in token && '#' !in token
    requires '#' !in group && '#' !in from && '#' !in to
    ensures QueryOf(ListPath(token, group, from, to))
         == "group=" + group + FromSegment(from) + ToSegment(to)
  {
    ListPathAtQuestionMark(token, group, from, to);
    var head := "checks/" + token + "/metrics";
    var g, fs, ts := "group=" + group, FromSegment(from), ToSegment(to);
    CharNotInJoin('#', "checks/", token);
    CharNotInJoin('#', "checks/" + token, "/metrics");
    CharNotInJoin('#', "group=", group);
    CharNotInJoin('#', "&from=", from);
    CharNotInJoin('#', "&to=", to);
    CharNotInJoin('#', g, fs);
    CharNotInJoin('#', g + fs, ts);
    QueryWithoutFragment(head, g + fs + ts);
  }

  /** The parameters of a query made of `group=...` and the optional segments. */
  lemma SplitParameters(group: string, from: string, to: string)
    requires '&' !in group && '&' !in from && '&' !in to
    ensures Split("group=" + group + FromSegment(from) + ToSegment(to), '&')
         == ["group=" + group]
          + (if from != "" then ["from=" + from] else [])
          + (if to != "" then ["to=" + to] else [])
  {
    var g := "group=" + group;
    CharNotInJoin('&', "group=", group);
    SplitWithoutSeparator(g, '&');
    SplitBeforeFrom(g, from);
    SplitBeforeTo(g + FromSegment(from), to);
  }

  /** Appending the optional `to` segment adds the `to` parameter when `to` is not empty. */
  lemma SplitBeforeTo(head: string, to: string)
    requires '&' !in to
    ensures Split(head + ToSegment(to), '&') == Split(head, '&') + (if to != "" then ["to=" + to] else [])
  {
    if to != "" {
      var t := "to=" + to;
      CharNotInJoin('&', "to=", to);
      assert head + ToSegment(to) == head + ['&'] + t;
      SplitAround(head, '&', t);
      SplitWithoutSeparator(t, '&');
    } else {
      assert head + ToSegment(to) == head;
    }
  }

  /** Appending the optional `from` segment adds the `from` parameter when `from` is not empty. */
  lemma SplitBeforeFrom(head: string, from: string)
    requires '&' !in from
    ensures Split(head + FromSegment(from), '&') == Split(head, '&') + (if from != "" then ["from=" + from] else [])
  {
    if from != "" {
      var f := "from=" + from;
      CharNotInJoin('&', "from=", from);
      assert head + FromSegment(from) == head + ['&'] + f;
      SplitAround(head, '&', f);
      SplitWithoutSeparator(f, '&');
    } else {
      assert head + FromSegment(from) == head;
    }
  }

  /** Two strings free of `c` make a string free of `c`. */
  lemma CharNotInJoin(c: char, a: string, b: string)
    requires c !in a && c !in b
    ensures c !in a + b
  {
  }

  /** Read back as the service's URL, when the token holds no `?`, nothing holds `#` and no
      parameter value holds `&`, the query's parameters are `group`, then `from` exactly when it is not
      empty, then `to` exactly when it is not empty. */
  lemma ListPathQuery(token: string, group: string, from: string, to: string)
    requires '%' !in token && '?' !in token && '#' !in token
    requires '#' !in group && '#' !in from && '#' !in to
    requires '&' !in group && '&' !in from && '&' !in to
    ensures Split(QueryOf(ListPath(token, group, from, to)), '&')
         == ["group=" + group]
          + (if from != "" then ["from=" + from] else [])
          + (if to != "" then ["to=" + to] else [])
  {
    ListPathQueryText(token, group, from, to);
    SplitParameters(group, from, to);
  }

  /** Corollary of the query form: a non-empty `from` (`to`) is sent as its own parameter,
      and an empty one is not sent at all. */
  lemma ListPathOptionalParameters(token: string, group: string, from: string, to: string)
    requires '%' !in token && '?' !in token && '#' !in token
    requires '#' !in group && '#' !in from && '#' !in to
    requires '&' !in group && '&' !in from && '&' !in to
    ensures var params := Split(QueryOf(ListPath(token, group, from, to)), '&');
      && (("from=" + from) in params <==> from != "")
      && (("to=" + to) in params <==> to != "")
  {
    ListPathQuery(token, group, from, to);
    var g, f, t := "group=" + group, "from=" + from, "to=" + to;
    assert g[0] == 'g' && f[0] == 'f' && t[0] == 't';
    var fs: seq<string> := if from != "" then [f] else [];
    var ts: seq<string> := if to != "" then [t] else [];
    assert f in [g] + fs + ts <==> f in fs;
    assert t in [g] + fs + ts <==> t in ts;
  }
}
