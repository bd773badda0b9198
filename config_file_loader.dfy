/** Loading the workspace configuration and filling in the default folder
    names (src/domain/ConfigFileLoader.ts). */
module ConfigFileLoader {
  import opened Results
  import opened Model

  const DefaultProjectsFolder := "current"
  const DefaultArchiveFolder := "archived"

  /** The `config.folders` object: each name is whatever the configuration
      holds, `None` when undefined. */
  class Folders {
    var current: Option<Yaml>
    var archive: Option<Yaml>
    var templates: Option<Yaml>

    constructor(current: Option<Yaml>, archive: Option<Yaml>, templates: Option<Yaml>)
      ensures this.current == current && this.archive == archive && this.templates == templates
    {
      this.current := current;
      this.archive := archive;
      this.templates := templates;
    }
  }

  /** A folder name after defaulting: kept when truthy, the default otherwise. */
  function WithDefault(v: Option<Yaml>, default: string): Option<Yaml> {
    if YTruthy(v) then v else Some(YStr(default))
  }

  /** With a non-empty default, the name is truthy afterwards, a truthy name
      is kept, and defaulting twice is defaulting once. */
  lemma WithDefaultSpec(v: Option<Yaml>, default: string)
    requires default != ""
    ensures YTruthy(WithDefault(v, default))
    ensures YTruthy(v) ==> WithDefault(v, default) == v
    ensures WithDefault(WithDefault(v, default), default) == WithDefault(v, default)
  {
  }

  /** `addDefaultValues`: a falsy `current` or `archive` gets its default;
      `templates` is not touched. */
  method AddDefaultValues(folders: Folders)
    modifies folders
    ensures folders.current == WithDefault(old(folders.current), DefaultProjectsFolder)
    ensures folders.archive == WithDefault(old(folders.archive), DefaultArchiveFolder)
    ensures folders.templates == old(folders.templates)
    ensures YTruthy(folders.current) && YTruthy(folders.archive)
  {
    if !YTruthy(folders.current) {
      folders.current := Some(YStr(DefaultProjectsFolder));
    }
    if !YTruthy(folders.archive) {
      folders.archive := Some(YStr(DefaultArchiveFolder));
    }
  }

  /** The three names read from a `folders` value. */
  datatype FolderFields = FolderFields(current: Option<Yaml>, archive: Option<Yaml>, templates: Option<Yaml>)

  /** `yaml.parse(content).config.folders`, as far as `addDefaultValues` can
      use it. `None` from the parser is a parse error (it throws). Reading a
      property of `null` or `undefined` throws; an array has none of the
      three names; a string, number or boolean has none either, and the
      strict-mode assignment of a default onto it throws. */
  function FoldersOf(parsed: Option<Yaml>): (r: Result<FolderFields>)
    ensures r.Ok? ==> parsed.Some? && YGet(parsed.value, "config").Some?
  {
    if parsed.None? then Failure("the configuration file is not valid YAML")
    else
      match YGet(parsed.value, "config")
      case None => Failure("config is undefined")
      case Some(config) =>
        match YGet(config, "folders")
        case Some(YMap(entries)) =>
          Ok(FolderFields(Lookup(entries, "current"), Lookup(entries, "archive"), Lookup(entries, "templates")))
        case Some(YList(_)) => Ok(FolderFields(None, None, None))
        case _ => Failure("config.folders is not an object")
  }

  /** `loadConfig`: without a file at `filePath` the names are `""`, then
      defaulted; otherwise the file's `config` is used, then defaulted. */
  method LoadConfig(files: map<string, string>, filePath: string, yamlParse: string -> Option<Yaml>)
    returns (r: Result<Folders>)
    ensures filePath !in files ==>
      && r.Ok?
      && r.value.current == Some(YStr(DefaultProjectsFolder))
      && r.value.archive == Some(YStr(DefaultArchiveFolder))
      && r.value.templates == None
    ensures filePath in files ==> (r.Ok? <==> FoldersOf(yamlParse(files[filePath])).Ok?)
    ensures filePath in files && r.Ok? ==>
      var fields := FoldersOf(yamlParse(files[filePath])).value;
      && r.value.current == WithDefault(fields.current, DefaultProjectsFolder)
      && r.value.archive == WithDefault(fields.archive, DefaultArchiveFolder)
      && r.value.templates == fields.templates
    ensures r.Ok? ==> fresh(r.value) && YTruthy(r.value.current) && YTruthy(r.value.archive)
  {
    var folders;
    if filePath in files {
      var fileContent := files[filePath];
      var parsed := FoldersOf(yamlParse(fileContent));
      if parsed.Failure? {
        return Failure(parsed.reason);
      }
      folders := new Folders(parsed.value.current, parsed.value.archive, parsed.value.templates);
    } else {
      folders := new Folders(Some(YStr("")), Some(YStr("")), None);
    }
    AddDefaultValues(folders);
    r := Ok(folders);
  }
}
