/**
 * Where the generator reads and writes: the template folder chosen from the
 * configuration, the blog's template and destination, the output and content
 * folders, and the output path of each file it copies or renders.
 */
module Config {
  import opened Wrappers
  import opened Strings
  import opened Paths

  const OutputDir := "output"
  const Content := "content"
  const Templates := "templates"

  /** The `blog` section of `config.yml`, defaults already filled in. */
  datatype BlogRaw = BlogRaw(
    baseTemplate: string,
    indexName: string,
    destination: string,
    generateSinglePages: bool,
    title: Option<string>)

  /** `config.yml` as read, defaults already filled in. */
  datatype ConfigRaw = ConfigRaw(
    template: string,
    templateBasePath: Option<string>,
    title: string,
    url: string,
    description: string,
    blog: BlogRaw)

  /** The defaults of a missing `blog` section. */
  const DefaultBlogRaw := BlogRaw("index.html", "index.html", "", true, None)

  datatype BlogConfig = BlogConfig(
    baseTemplate: Path,
    indexName: string,
    destination: Path,
    generateSinglePages: bool,
    title: Option<string>)

  datatype GeneretoConfig = GeneretoConfig(
    templateDirPath: Path,
    outputDirPath: Path,
    projectPath: Path,
    contentPath: Path,
    template: string,
    templateBasePath: Option<string>,
    title: string,
    url: string,
    description: string,
    blog: BlogConfig)

  /**
   * `GeneretoConfigBlog::new_from_raw`: the blog template always lives in the
   * project's own template folder; the destination is inside the output folder.
   */
  function NewBlogFromRaw(project: Path, raw: ConfigRaw): (r: BlogConfig)
    ensures !StartsWith(raw.template, "/") && !StartsWith(raw.blog.baseTemplate, "/")
      ==> StartsWithPath(r.baseTemplate, JoinText(JoinText(project, Templates), raw.template))
    ensures !StartsWith(raw.blog.destination, "/") ==> StartsWithPath(r.destination, JoinText(project, OutputDir))
    ensures StartsWith(raw.blog.destination, "/") ==> r.destination == PathOf(raw.blog.destination)
  {
    JoinInside(JoinText(JoinText(project, Templates), raw.template), raw.blog.baseTemplate);
    JoinInside(JoinText(project, OutputDir), raw.blog.destination);
    BlogConfig(
      JoinText(JoinText(JoinText(project, Templates), raw.template), raw.blog.baseTemplate),
      raw.blog.indexName,
      JoinText(JoinText(project, OutputDir), raw.blog.destination),
      raw.blog.generateSinglePages,
      raw.blog.title)
  }

  /**
   * The template folder of `load_from_folder`: the configured base path (taken
   * as is when absolute, under the project otherwise) or the project's
   * `templates` folder, followed by the template's name unless it is empty.
   */
  function TemplateDir(project: Path, raw: ConfigRaw): (r: Path)
    ensures !StartsWith(raw.template, "/") ==> StartsWithPath(r, TemplateRoot(project, raw))
  {
    JoinInside(TemplateRoot(project, raw), raw.template);
    match raw.templateBasePath
    case Some(b) =>
      var base := PathOf(b);
      if base.absolute then
        (if raw.template == "" then base else JoinText(base, raw.template))
      else
        var relative := Join(project, base);
        if raw.template == "" then relative else JoinText(relative, raw.template)
    case None => JoinText(JoinText(project, Templates), raw.template)
  }

  /**
   * Where the template folder starts before the template's name is added: the base
   * path as is when absolute, under the project when relative, and the project's
   * `templates` folder when there is none.
   */
  function TemplateRoot(project: Path, raw: ConfigRaw): Path {
    match raw.templateBasePath
    case Some(b) => Join(project, PathOf(b))
    case None => JoinText(project, Templates)
  }

  /** `GeneretoConfig::load_from_folder` once `config.yml` has been read. */
  function LoadFromFolder(project: Path, raw: ConfigRaw): (c: GeneretoConfig)
    ensures c.projectPath == project
    ensures StartsWithPath(c.outputDirPath, project) && StartsWithPath(c.contentPath, project)
    ensures c.templateDirPath == TemplateDir(project, raw) && c.blog == NewBlogFromRaw(project, raw)
  {
    JoinFolder(project, OutputDir);
    JoinFolder(project, Content);
    GeneretoConfig(
      TemplateDir(project, raw),
      JoinText(project, OutputDir),
      project,
      JoinText(project, Content),
      raw.template,
      raw.templateBasePath,
      raw.title,
      raw.url,
      raw.description,
      NewBlogFromRaw(project, raw))
  }

  /** The output name of an entry: a directory keeps its name, a file has every ".md" made ".html". */
  function DestName(name: string, isDir: bool): string {
    if isDir then name else ReplaceAll(name, ".md", ".html")
  }

  /** `inner_get_dest_path`; an entry without a file name makes the source panic. */
  function InnerGetDestPath(entry: Path, isDir: bool, base: Path): (r: Path)
    requires FileName(entry).Some?
    ensures WellFormed(entry) ==> StartsWithPath(r, base) && FileName(r) == Some(DestName(FileName(entry).value, isDir))
  {
    DestNameJoined(entry, isDir, base);
    JoinText(base, DestName(FileName(entry).value, isDir))
  }

  /** `get_blog_dest_path`: under the blog's destination. */
  function GetBlogDestPath(config: GeneretoConfig, entry: Path, isDir: bool): Path
    requires FileName(entry).Some?
  {
    InnerGetDestPath(entry, isDir, config.blog.destination)
  }

  /** `get_dest_path`: under the output folder. */
  function GetDestPath(config: GeneretoConfig, entry: Path, isDir: bool): Path
    requires FileName(entry).Some?
  {
    InnerGetDestPath(entry, isDir, config.outputDirPath)
  }

  // ---------------------------------------------------------------------------
  // The folders of a project

  /** A folder name joined to a path is one more component of it. */
  lemma JoinFolder(p: Path, name: string)
    requires '/' !in name && name != "" && name != "."
    ensures JoinText(p, name) == Path(p.absolute, p.components + [name])
    ensures StartsWithPath(JoinText(p, name), p)
  {
    PathOfName(name);
    assert (p.components + [name])[..|p.components|] == p.components;
  }

  /** Joining text that does not start with a slash gives a path inside the first one. */
  lemma JoinInside(a: Path, t: string)
    ensures !StartsWith(t, "/") ==> StartsWithPath(JoinText(a, t), a)
  {
    if !StartsWith(t, "/") {
      JoinTextRelative(a, t);
    }
  }

  /** A well-formed entry's output name is one more component of the base. */
  lemma DestNameJoined(entry: Path, isDir: bool, base: Path)
    requires FileName(entry).Some?
    ensures WellFormed(entry) ==>
      var name := DestName(FileName(entry).value, isDir);
      && JoinText(base, name) == Path(base.absolute, base.components + [name])
      && StartsWithPath(JoinText(base, name), base)
      && FileName(JoinText(base, name)) == Some(name)
  {
    if WellFormed(entry) {
      var n := FileName(entry).value;
      FileNameIsNamed(entry);
      DestNameIsNamed(n, isDir);
      var name := DestName(n, isDir);
      PathOfName(name);
      assert (base.components + [name])[..|base.components|] == base.components;
    }
  }

  /** The project folder is kept as given; the output and content folders are its children. */
  lemma LoadedFolders(project: Path, raw: ConfigRaw)
    ensures var c := LoadFromFolder(project, raw);
      && c.projectPath == project
      && c.outputDirPath == Path(project.absolute, project.components + [OutputDir])
      && c.contentPath == Path(project.absolute, project.components + [Content])
      && StartsWithPath(c.outputDirPath, project) && StartsWithPath(c.contentPath, project)
  {
    JoinFolder(project, OutputDir);
    JoinFolder(project, Content);
  }

  /**
   * A relative blog destination is inside the output folder, so inside the
   * project; an absolute one replaces the output folder altogether.
   */
  lemma BlogDestination(project: Path, raw: ConfigRaw)
    ensures var c := LoadFromFolder(project, raw);
      && (!StartsWith(raw.blog.destination, "/") ==>
            c.blog.destination == Path(project.absolute, project.components + [OutputDir] + Components(raw.blog.destination))
            && StartsWithPath(c.blog.destination, c.outputDirPath)
            && StartsWithPath(c.blog.destination, project))
      && (StartsWith(raw.blog.destination, "/") ==> c.blog.destination == PathOf(raw.blog.destination))
  {
    var output := JoinText(project, OutputDir);
    var dest := raw.blog.destination;
    JoinFolder(project, OutputDir);
    if !StartsWith(dest, "/") {
      JoinTextRelative(output, dest);
      PrefixOfPrefix(project.components, [OutputDir], Components(dest));
    }
  }

  /**
   * The blog's index template is `<template>/<base_template>` under the project's
   * own `templates` folder, so it lies inside the configured template's folder there.
   */
  lemma BlogTemplatePath(project: Path, raw: ConfigRaw)
    requires !StartsWith(raw.template, "/") && !StartsWith(raw.blog.baseTemplate, "/")
    ensures var c := LoadFromFolder(project, raw);
      var folder := JoinText(JoinText(project, Templates), raw.template);
      && c.blog.baseTemplate
        == Path(project.absolute, project.components + [Templates] + Components(raw.template) + Components(raw.blog.baseTemplate))
      && StartsWithPath(c.blog.baseTemplate, folder)
      && StartsWithPath(c.blog.baseTemplate, project)
  {
    BlogBaseTemplate(project, raw);
    TemplatesIsName();
    FolderThenTwo(project, Templates, raw.template, raw.blog.baseTemplate);
  }

  /** The `templates` folder name is one plain path component. */
  lemma TemplatesIsName()
    ensures '/' !in Templates && Templates != "" && Templates != "."
  {
  }

  /** The blog's index template is joined from the project's `templates` folder, the template and `base_template`. */
  lemma BlogBaseTemplate(project: Path, raw: ConfigRaw)
    ensures LoadFromFolder(project, raw).blog.baseTemplate
      == JoinText(JoinText(JoinText(project, Templates), raw.template), raw.blog.baseTemplate)
  {
  }

  /** `<project>/<name>/<t>/<b>` for a folder name and relative `t` and `b`, component by component. */
  lemma FolderThenTwo(project: Path, name: string, t: string, b: string)
    requires '/' !in name && name != "" && name != "."
    requires !StartsWith(t, "/") && !StartsWith(b, "/")
    ensures var folder := JoinText(JoinText(project, name), t);
      var p := JoinText(folder, b);
      && p == Path(project.absolute, project.components + [name] + Components(t) + Components(b))
      && StartsWithPath(p, folder)
      && StartsWithPath(p, project)
  {
    JoinFolder(project, name);
    JoinTwice(JoinText(project, name), t, b);
    PrefixOfPrefix(project.components, [name], Components(t) + Components(b));
    assert project.components + [name] + (Components(t) + Components(b))
      == project.components + [name] + Components(t) + Components(b);
  }

  /** Joining two relative texts in turn appends both texts' components. */
  lemma JoinTwice(base: Path, t: string, b: string)
    requires !StartsWith(t, "/") && !StartsWith(b, "/")
    ensures var folder := JoinText(base, t);
      var p := JoinText(folder, b);
      && p == Path(base.absolute, base.components + Components(t) + Components(b))
      && StartsWithPath(p, folder)
  {
    JoinTextRelative(base, t);
    JoinTextRelative(JoinText(base, t), b);
  }

  /** The blog's index template does not move with `template_base_path`, unlike the template folder. */
  lemma BlogTemplateIgnoresBasePath(project: Path, raw: ConfigRaw, base: Option<string>)
    ensures LoadFromFolder(project, raw.(templateBasePath := base)).blog.baseTemplate
      == LoadFromFolder(project, raw).blog.baseTemplate
  {
  }

  lemma PrefixOfPrefix<T>(a: seq<T>, b: seq<T>, c: seq<T>)
    ensures (a + b + c)[..|a|] == a
  {
  }

  /** Without a base path the templates are under the project's `templates` folder. */
  lemma TemplateDirDefault(project: Path, raw: ConfigRaw)
    requires raw.templateBasePath.None? && !StartsWith(raw.template, "/")
    ensures TemplateDir(project, raw) == Path(project.absolute, project.components + [Templates] + Components(raw.template))
    ensures StartsWithPath(TemplateDir(project, raw), project)
  {
    JoinFolder(project, Templates);
    JoinTextRelative(JoinText(project, Templates), raw.template);
    PrefixOfPrefix(project.components, [Templates], Components(raw.template));
  }

  /** A relative base path is read under the project, then the template's name follows. */
  lemma TemplateDirRelativeBase(project: Path, raw: ConfigRaw)
    requires raw.templateBasePath.Some? && !StartsWith(raw.templateBasePath.value, "/")
    requires !StartsWith(raw.template, "/")
    ensures TemplateDir(project, raw)
      == Path(project.absolute, project.components + Components(raw.templateBasePath.value) + Components(raw.template))
    ensures StartsWithPath(TemplateDir(project, raw), project)
  {
    var b := raw.templateBasePath.value;
    JoinTextRelative(project, b);
    if raw.template == "" {
      assert Components(raw.template) == [];
      assert project.components + Components(b) + [] == project.components + Components(b);
    } else {
      JoinTextRelative(JoinText(project, b), raw.template);
    }
    PrefixOfPrefix(project.components, Components(b), Components(raw.template));
  }

  /** An absolute base path is taken as is, then the template's name follows. */
  lemma TemplateDirAbsoluteBase(project: Path, raw: ConfigRaw)
    requires raw.templateBasePath.Some? && StartsWith(raw.templateBasePath.value, "/")
    requires !StartsWith(raw.template, "/")
    ensures TemplateDir(project, raw) == Path(true, Components(raw.templateBasePath.value) + Components(raw.template))
    ensures StartsWithPath(TemplateDir(project, raw), PathOf(raw.templateBasePath.value))
  {
    var base := PathOf(raw.templateBasePath.value);
    if raw.template == "" {
      assert Components(raw.template) == [];
      assert base.components + [] == base.components;
    } else {
      JoinTextRelative(base, raw.template);
    }
    PrefixOfPrefix(base.components, Components(raw.template), []);
  }

  /** Text with something before the slash starts with a slash exactly when that part does. */
  lemma SlashJoinedStart(b: string, t: string)
    requires b != ""
    ensures StartsWith(b + "/" + t, "/") == StartsWith(b, "/")
  {
    assert (b + "/" + t)[0] == b[0];
  }

  /**
   * With a non-empty base path, the template folder is the project joined with the
   * text `base/template`, as the configuration test spells it: relative bases
   * land under the project, absolute ones replace it.
   */
  lemma TemplateDirAsText(project: Path, raw: ConfigRaw)
    requires raw.templateBasePath.Some? && raw.templateBasePath.value != ""
    requires raw.template != "" && !StartsWith(raw.template, "/")
    ensures TemplateDir(project, raw) == JoinText(project, raw.templateBasePath.value + "/" + raw.template)
  {
    var b := raw.templateBasePath.value;
    JoinSlashText(project, b, raw.template);
    if StartsWith(b, "/") {
      TemplateDirAbsoluteBase(project, raw);
    } else {
      TemplateDirRelativeBase(project, raw);
    }
  }

  lemma JoinSlashText(p: Path, b: string, t: string)
    requires b != ""
    ensures JoinText(p, b + "/" + t)
      == if StartsWith(b, "/") then Path(true, Components(b) + Components(t))
         else Path(p.absolute, p.components + Components(b) + Components(t))
  {
    ComponentsSlash(b, t);
    SlashJoinedStart(b, t);
  }

  /** A relative base path and a template name, as in the configuration test. */
  lemma RelativeBaseExample(project: Path, raw: ConfigRaw)
    requires raw.templateBasePath == Some("custom/template/path") && raw.template == "test_template"
    ensures TemplateDir(project, raw) == JoinText(project, "custom/template/path/test_template")
  {
    assert raw.template[0] == 't';
    TemplateDirAsText(project, raw);
    ExamplePathText();
  }

  lemma ExamplePathText()
    ensures "custom/template/path" + "/" + "test_template" == "custom/template/path/test_template"
  {
  }

  /** An absolute base path and no template name, as in the configuration test. */
  lemma AbsoluteBaseExample(project: Path, raw: ConfigRaw)
    requires raw.templateBasePath == Some("/custom/template/path") && raw.template == ""
    ensures TemplateDir(project, raw) == PathOf("/custom/template/path")
  {
    var b := raw.templateBasePath.value;
    assert StartsWith(b, "/");
  }

  // ---------------------------------------------------------------------------
  // Output paths

  /** The name of a well-formed path's last component is a plain file name. */
  lemma FileNameIsNamed(entry: Path)
    requires WellFormed(entry) && FileName(entry).Some?
    ensures IsNamedComponent(FileName(entry).value) && FileName(entry).value != ".."
  {
  }

  /** Output names are plain file names too: no slash, not empty, not "." or "..". */
  lemma DestNameIsNamed(name: string, isDir: bool)
    requires IsNamedComponent(name) && name != ".."
    ensures IsNamedComponent(DestName(name, isDir)) && DestName(name, isDir) != ".."
    ensures |DestName(name, isDir)| >= |name|
  {
    if !isDir {
      ReplaceAllLonger(name, ".md", ".html");
      ReplaceAllKeepsOut(name, ".md", ".html", '/');
      if |name| < 3 {
        assert DestName(name, isDir) == name;
      }
    }
  }

  /**
   * The output path is the base path with the entry's output name as one more
   * component, so it lies inside the base and that name is its file name.
   */
  lemma DestPathShape(entry: Path, isDir: bool, base: Path)
    requires WellFormed(entry) && FileName(entry).Some?
    ensures var name := DestName(FileName(entry).value, isDir);
      var r := InnerGetDestPath(entry, isDir, base);
      && r == Path(base.absolute, base.components + [name])
      && StartsWithPath(r, base)
      && FileName(r) == Some(name)
  {
    DestNameJoined(entry, isDir, base);
  }

  /** A directory is copied under its own name. */
  lemma DirectoryKeepsName(entry: Path, base: Path)
    requires WellFormed(entry) && FileName(entry).Some?
    ensures FileName(InnerGetDestPath(entry, true, base)) == FileName(entry)
  {
    DestPathShape(entry, true, base);
  }

  /** A markdown file whose stem has no dot is rendered to the same stem with ".html". */
  lemma MarkdownBecomesHtml(stem: string)
    requires '.' !in stem
    ensures DestName(stem + ".md", false) == stem + ".html"
  {
    forall i: nat | i < |stem|
      ensures !OccursAt(stem + ".md", ".md", i)
    {
      assert (stem + ".md")[i] == stem[i];
    }
    ReplaceAllSkip(stem, ".md", ".md", ".html");
    ReplaceAllSelf(".md", ".html");
  }

  /** A file whose name does not contain ".md" keeps its name. */
  lemma OtherFileKeepsName(name: string)
    requires !IsInfix(".md", name)
    ensures DestName(name, false) == name
  {
    ReplaceAllAbsent(name, ".md", ".html");
  }

  /** Any ".md" is replaced, not only a final extension: `post.mdx` becomes `post.htmlx`. */
  lemma EveryMarkdownReplaced(a: string, b: string)
    requires '.' !in a && '.' !in b
    ensures DestName(a + ".md" + b, false) == a + ".html" + b
  {
    var s := a + ".md" + b;
    forall i: nat | i < |a|
      ensures !OccursAt(s, ".md", i)
    {
      assert s[i] == a[i];
    }
    assert s == a + (".md" + b);
    ReplaceAllSkip(a, ".md" + b, ".md", ".html");
    ReplaceAllAtStart(".md", b, ".html");
    NoDotNoMarkdown(b);
    ReplaceAllAbsent(b, ".md", ".html");
  }

  /** Text without a dot does not contain ".md". */
  lemma NoDotNoMarkdown(b: string)
    requires '.' !in b
    ensures !IsInfix(".md", b)
  {
    forall i: nat
      ensures !OccursAt(b, ".md", i)
    {
      if i + 3 <= |b| {
        assert b[i..i + 3][0] == b[i];
      }
    }
  }

  /** ".md" at `i` is its three characters there. */
  lemma MarkdownAt(s: string, i: nat)
    requires i + 3 <= |s|
    ensures OccursAt(s, ".md", i) <==> s[i] == '.' && s[i + 1] == 'm' && s[i + 2] == 'd'
  {
    var w := s[i..i + 3];
    assert w[0] == s[i] && w[1] == s[i + 1] && w[2] == s[i + 2];
    if s[i] == '.' && s[i + 1] == 'm' && s[i + 2] == 'd' {
      assert w == ".md";
    }
  }

  /** The first character of the rewritten text, and what follows it. */
  lemma ReplacedHead(x: string)
    requires x != []
    ensures var r := ReplaceAll(x, ".md", ".html");
      && r != []
      && (OccursAt(x, ".md", 0) ==> r == ".html" + ReplaceAll(x[3..], ".md", ".html"))
      && (!OccursAt(x, ".md", 0) ==> r == [x[0]] + ReplaceAll(x[1..], ".md", ".html"))
  {
    if |x| < 3 {
      assert ReplaceAll(x[1..], ".md", ".html") == x[1..];
      assert x == [x[0]] + x[1..];
    }
  }

  /** Rewriting leaves no ".md" behind, whatever the text around it. */
  lemma {:induction false} NoMarkdownLeft(s: string)
    ensures !IsInfix(".md", ReplaceAll(s, ".md", ".html"))
    decreases |s|
  {
    if |s| < 3 {
      assert ReplaceAll(s, ".md", ".html") == s;
    } else if OccursAt(s, ".md", 0) {
      ReplacedHead(s);
      NoMarkdownLeft(s[3..]);
      HtmlNoMarkdown(ReplaceAll(s[3..], ".md", ".html"));
    } else {
      ReplacedHead(s);
      NoMarkdownLeft(s[1..]);
      assert s == [s[0]] + s[1..];
      ConsNoMarkdown(s[0], s[1..]);
    }
  }

  /** ".html" ahead of text without ".md" does not create one. */
  lemma HtmlNoMarkdown(t: string)
    requires !IsInfix(".md", t)
    ensures !IsInfix(".md", ".html" + t)
  {
    var r := ".html" + t;
    forall i: nat | i + 3 <= |r|
      ensures !OccursAt(r, ".md", i)
    {
      MarkdownAt(r, i);
      if i >= 5 {
        assert r[i..i + 3] == t[i - 5..i - 2];
        assert !OccursAt(t, ".md", i - 5);
      }
    }
  }

  /** A character kept ahead of the rewritten rest starts no ".md" unless the text did. */
  lemma ConsNoMarkdown(c: char, x: string)
    requires !IsInfix(".md", ReplaceAll(x, ".md", ".html"))
    requires |x| >= 2 && !OccursAt([c] + x, ".md", 0)
    ensures !IsInfix(".md", [c] + ReplaceAll(x, ".md", ".html"))
  {
    ConsHeadNoMarkdown(c, x);
    ConsTailNoMarkdown(c, ReplaceAll(x, ".md", ".html"));
  }

  /** The kept character and the first two of the rewritten rest are not ".md". */
  lemma ConsHeadNoMarkdown(c: char, x: string)
    requires |x| >= 2 && !OccursAt([c] + x, ".md", 0)
    ensures !OccursAt([c] + ReplaceAll(x, ".md", ".html"), ".md", 0)
  {
    var t := ReplaceAll(x, ".md", ".html");
    RewrittenFirstTwo(x);
    MarkdownAt([c] + x, 0);
    assert ([c] + x)[1] == x[0] && ([c] + x)[2] == x[1];
    assert ([c] + t)[0] == c && ([c] + t)[1] == t[0] && ([c] + t)[2] == t[1];
    MarkdownAt([c] + t, 0);
  }

  /** The rewritten text starts with ".h", or with the text's first character and then '.' or its second. */
  lemma RewrittenFirstTwo(x: string)
    requires |x| >= 2
    ensures var t := ReplaceAll(x, ".md", ".html");
      && |t| >= 2
      && ((t[0] == '.' && t[1] == 'h') || (t[0] == x[0] && (t[1] == '.' || t[1] == x[1])))
  {
    ReplacedHead(x);
    if !OccursAt(x, ".md", 0) {
      var u := ReplaceAll(x[1..], ".md", ".html");
      ReplacedHead(x[1..]);
      assert x[1..][0] == x[1];
      assert u[0] == '.' || u[0] == x[1];
    }
  }

  /** Past the kept character, an ".md" would be one of the rewritten rest. */
  lemma ConsTailNoMarkdown(c: char, t: string)
    requires !IsInfix(".md", t) && !OccursAt([c] + t, ".md", 0)
    ensures !IsInfix(".md", [c] + t)
  {
    var r := [c] + t;
    forall i: nat | 0 < i && i + 3 <= |r|
      ensures !OccursAt(r, ".md", i)
    {
      assert r[i..i + 3] == t[i - 1..i + 2];
      assert !OccursAt(t, ".md", i - 1);
    }
  }

  /** A file's output name contains no ".md": every occurrence became ".html". */
  lemma DestNameHasNoMarkdown(name: string)
    ensures !IsInfix(".md", DestName(name, false))
  {
    NoMarkdownLeft(name);
  }
}
