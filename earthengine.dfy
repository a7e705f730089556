/** Earth Engine collection names: Planet's delivery wants the collection
    name relative to the project's assets, the Earth Engine API the full
    asset path. */
module EarthEngine {
  import opened Strings

  const ProjectsPrefix: string := "projects/"

  /** `get_ee_collection_names(ee_project, ee_collection)`: the short name
      and the full asset path of a collection given either way. */
  function CollectionNames(project: string, collection: string): (string, string) {
    if StartsWith(collection, ProjectsPrefix) then
      (Join(DropParts(Split(collection, '/'), 3), '/'), collection)
    else
      (collection, ProjectsPrefix + project + "/assets/" + collection)
  }

  /** A full path is kept as given; the short name is what follows its third
      '/' (everything, slashes included, after `projects/<project>/assets/`). */
  lemma FullPathGiven(project: string, collection: string)
    requires StartsWith(collection, ProjectsPrefix)
    ensures CollectionNames(project, collection).1 == collection
    ensures |Split(collection, '/')| > 3 ==>
      collection == Join(Split(collection, '/')[..3], '/') + "/" + CollectionNames(project, collection).0
    ensures |Split(collection, '/')| <= 3 ==> CollectionNames(project, collection).0 == ""
  {
    var parts := Split(collection, '/');
    if |parts| > 3 {
      JoinSplit(collection, '/');
      assert parts == parts[..3] + parts[3..];
      JoinConcat(parts[..3], parts[3..], '/');
    }
  }

  /** A short name is kept as given and placed under the project's assets. */
  lemma ShortNameGiven(project: string, collection: string)
    requires !StartsWith(collection, ProjectsPrefix)
    ensures CollectionNames(project, collection) == (collection, "projects/" + project + "/assets/" + collection)
  {
  }

  /** The full path always starts with `projects/`. */
  lemma FullPathPrefixed(project: string, collection: string)
    ensures StartsWith(CollectionNames(project, collection).1, ProjectsPrefix)
  {
    var full := CollectionNames(project, collection).1;
    if !StartsWith(collection, ProjectsPrefix) {
      assert full[..|ProjectsPrefix|] == ProjectsPrefix;
    }
  }

  /** Three separator-free segments in front of `rest` split off as three parts. */
  lemma SplitThree(a: string, b: string, c: string, rest: string, sep: char)
    requires sep !in a && sep !in b && sep !in c
    ensures Split(a + [sep] + (b + [sep] + (c + [sep] + rest)), sep) == [a, b, c] + Split(rest, sep)
  {
    SplitConcat(a, b + [sep] + (c + [sep] + rest), sep);
    SplitConcat(b, c + [sep] + rest, sep);
    SplitConcat(c, rest, sep);
    SplitNoSep(a, sep);
    SplitNoSep(b, sep);
    SplitNoSep(c, sep);
  }

  /** Feeding the full path back in gives the same pair of names, provided the
      project name holds no '/'. */
  lemma RoundTrip(project: string, collection: string)
    requires '/' !in project
    ensures var names := CollectionNames(project, collection);
      CollectionNames(project, names.1) == names
  {
    if !StartsWith(collection, ProjectsPrefix) {
      var full := CollectionNames(project, collection).1;
      var projects, assets := "projects", "assets";
      assert full == projects + ['/'] + (project + ['/'] + (assets + ['/'] + collection));
      SplitThree(projects, project, assets, collection, '/');
      var parts := Split(full, '/');
      assert DropParts(parts, 3) == Split(collection, '/');
      JoinSplit(collection, '/');
      FullPathPrefixed(project, collection);
    }
  }

  /** With a '/' in the project name the round trip breaks: from
      `projects/a/b/assets/c` the short name recovered is `assets/c`. */
  lemma RoundTripNeedsPlainProject(a: string, b: string, collection: string)
    requires '/' !in a && '/' !in b && !StartsWith(collection, ProjectsPrefix)
    ensures var project := a + "/" + b;
      CollectionNames(project, CollectionNames(project, collection).1).0 == "assets/" + collection != collection
  {
    var project := a + "/" + b;
    var full := CollectionNames(project, collection).1;
    var projects := "projects";
    assert full == projects + ['/'] + (a + ['/'] + (b + ['/'] + ("assets/" + collection)));
    SplitThree(projects, a, b, "assets/" + collection, '/');
    JoinSplit("assets/" + collection, '/');
    FullPathPrefixed(project, collection);
  }
}
