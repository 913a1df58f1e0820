/**
 * User overrides of the PHP web-server configuration (pkg/webconfig):
 * which override files apply, the record built from the runtime config, its
 * in-place patch from composer.json, and the environment variables it sets.
 */
module WebConfig {

  const DefaultRoot := "/workspace"
  const DefaultNginxConfInclude := "nginx-app.conf"
  const DefaultNginxConfHTTPInclude := "nginx-http.conf"
  const DefaultNginxConf := "nginx.conf"
  const DefaultPHPFPMConfOverride := "php-fpm.conf"
  const DefaultPHPIni := "php.ini"

  /** Build-time variable carrying the composer arguments (`php.ComposerArgsEnv`). */
  const ComposerArgsEnv := "GOOGLE_COMPOSER_ARGS"
  /** Launch-time variable naming the php.ini override. */
  const PhpRcEnv := "PHPRC"

  /** What `ctx.FileExists` reports for a path under the application root. */
  datatype FileCheck = Exists | Missing | CheckFailed

  /** The fields of the app.yaml runtime config that this package reads. */
  datatype RuntimeConfig = RuntimeConfig(
    composerFlags: string,
    documentRoot: string,
    frontControllerFile: string,
    phpIniOverride: string,
    phpFPMConfOverride: string,
    nginxConfOverride: string,
    nginxConfInclude: string,
    nginxConfHTTPInclude: string)

  /** `composer.json` `extra.google-buildpacks`: the settings the patch reads. */
  datatype ComposerExtra = ComposerExtra(
    documentRoot: string,
    frontController: string,
    enableDynamicWorkers: bool,
    workers: int,
    serveStatic: bool)

  /** `filepath.Join(defaultRoot, name)` for a plain relative name. */
  function WorkspacePath(name: string): (path: string)
    ensures |path| > |DefaultRoot|
  {
    DefaultRoot + "/" + name
  }

  /**
   * `overrideProperties`: an explicit config value wins without looking at
   * the disk; otherwise the default file applies when it exists; a missing
   * file or a failed check means no override. The flag is set exactly when a
   * path is returned.
   */
  function OverrideProperty(fileExists: string -> FileCheck, configValue: string, defaultFile: string): (r: (bool, string))
    ensures r.0 <==> r.1 != ""
    ensures configValue != "" ==> r == (true, WorkspacePath(configValue))
    ensures configValue == "" ==> (r.0 <==> fileExists(defaultFile) == Exists)
    ensures configValue == "" && r.0 ==> r.1 == WorkspacePath(defaultFile)
  {
    if configValue != "" then (true, WorkspacePath(configValue))
    else match fileExists(defaultFile)
      case CheckFailed => (false, "")
      case Exists => (true, WorkspacePath(defaultFile))
      case Missing => (false, "")
  }

  /** With an explicit config value the answer does not depend on which files exist. */
  lemma ConfigValueIgnoresFiles(check1: string -> FileCheck, check2: string -> FileCheck, configValue: string, defaultFile: string)
    requires configValue != ""
    ensures OverrideProperty(check1, configValue, defaultFile) == OverrideProperty(check2, configValue, defaultFile)
  {
  }

  /** `OverrideProperties`, the record the PHP buildpacks read their overrides from. */
  class OverrideProperties {
    var composerFlags: string
    var documentRoot: string
    var frontController: string
    var nginxConfOverride: bool
    var nginxConfOverrideFileName: string
    var nginxServerConfInclude: bool
    var nginxServerConfIncludeFileName: string
    var nginxHTTPInclude: bool
    var nginxHTTPIncludeFileName: string
    var phpFPMDynamicWorkers: bool
    var phpFPMWorkers: int
    var phpFPMOverride: bool
    var phpFPMOverrideFileName: string
    var phpIniOverride: bool
    var phpIniOverrideFileName: string
    var nginxServesStaticFiles: bool

    /** The five (flag, file name) pairs: php.ini, php-fpm, nginx.conf, server include, http include. */
    function OverrideFiles(): seq<(bool, string)>
      reads this
    {
      [ (phpIniOverride, phpIniOverrideFileName),
        (phpFPMOverride, phpFPMOverrideFileName),
        (nginxConfOverride, nginxConfOverrideFileName),
        (nginxServerConfInclude, nginxServerConfIncludeFileName),
        (nginxHTTPInclude, nginxHTTPIncludeFileName) ]
    }

    /**
     * A struct literal that names the composer flags, document root, front
     * controller and the five override pairs (in OverrideFiles order), leaving
     * the other fields zero.
     */
    constructor Literal(composerFlags: string, documentRoot: string, frontController: string,
                        overrides: seq<(bool, string)>)
      requires |overrides| == 5
      ensures this.composerFlags == composerFlags
      ensures this.documentRoot == documentRoot
      ensures this.frontController == frontController
      ensures OverrideFiles() == overrides
      ensures !phpFPMDynamicWorkers && phpFPMWorkers == 0 && !nginxServesStaticFiles
    {
      this.composerFlags, this.documentRoot, this.frontController := composerFlags, documentRoot, frontController;
      phpIniOverride, phpIniOverrideFileName := overrides[0].0, overrides[0].1;
      phpFPMOverride, phpFPMOverrideFileName := overrides[1].0, overrides[1].1;
      nginxConfOverride, nginxConfOverrideFileName := overrides[2].0, overrides[2].1;
      nginxServerConfInclude, nginxServerConfIncludeFileName := overrides[3].0, overrides[3].1;
      nginxHTTPInclude, nginxHTTPIncludeFileName := overrides[4].0, overrides[4].1;
      phpFPMDynamicWorkers, phpFPMWorkers := false, 0;
      nginxServesStaticFiles := false;
    }

    /**
     * `PatchWithComposerConfig`: a non-empty document root or front controller
     * replaces the current one; the php-fpm worker settings are always
     * replaced; serving static files can be switched on but never off; the
     * composer flags and every override flag and file name stay as they were.
     */
    method PatchWithComposerConfig(extra: ComposerExtra)
      modifies this
      ensures documentRoot == if extra.documentRoot != "" then extra.documentRoot else old(documentRoot)
      ensures frontController == if extra.frontController != "" then extra.frontController else old(frontController)
      ensures phpFPMDynamicWorkers == extra.enableDynamicWorkers && phpFPMWorkers == extra.workers
      ensures nginxServesStaticFiles == (old(nginxServesStaticFiles) || extra.serveStatic)
      ensures composerFlags == old(composerFlags)
      ensures OverrideFiles() == old(OverrideFiles())
    {
      if |extra.documentRoot| > 0 {
        documentRoot := extra.documentRoot;
      }
      if |extra.frontController| > 0 {
        frontController := extra.frontController;
      }
      phpFPMDynamicWorkers := extra.enableDynamicWorkers;
      phpFPMWorkers := extra.workers;
      if extra.serveStatic {
        nginxServesStaticFiles := extra.serveStatic;
      }
    }
  }

  /**
   * `OverriddenProperties`: the runtime config's composer flags, document root
   * and front controller verbatim, the five override pairs resolved against
   * their default file names, and zero worker and static-file settings.
   */
  method OverriddenProperties(fileExists: string -> FileCheck, rc: RuntimeConfig) returns (op: OverrideProperties)
    ensures fresh(op)
    ensures op.composerFlags == rc.composerFlags
    ensures op.documentRoot == rc.documentRoot
    ensures op.frontController == rc.frontControllerFile
    ensures (op.phpIniOverride, op.phpIniOverrideFileName)
      == OverrideProperty(fileExists, rc.phpIniOverride, DefaultPHPIni)
    ensures (op.phpFPMOverride, op.phpFPMOverrideFileName)
      == OverrideProperty(fileExists, rc.phpFPMConfOverride, DefaultPHPFPMConfOverride)
    ensures (op.nginxConfOverride, op.nginxConfOverrideFileName)
      == OverrideProperty(fileExists, rc.nginxConfOverride, DefaultNginxConf)
    ensures (op.nginxServerConfInclude, op.nginxServerConfIncludeFileName)
      == OverrideProperty(fileExists, rc.nginxConfInclude, DefaultNginxConfInclude)
    ensures (op.nginxHTTPInclude, op.nginxHTTPIncludeFileName)
      == OverrideProperty(fileExists, rc.nginxConfHTTPInclude, DefaultNginxConfHTTPInclude)
    ensures !op.phpFPMDynamicWorkers && op.phpFPMWorkers == 0 && !op.nginxServesStaticFiles
  {
    var phpIni := OverrideProperty(fileExists, rc.phpIniOverride, DefaultPHPIni);
    var phpFPM := OverrideProperty(fileExists, rc.phpFPMConfOverride, DefaultPHPFPMConfOverride);
    var nginxConf := OverrideProperty(fileExists, rc.nginxConfOverride, DefaultNginxConf);
    var nginxServerConfInclude := OverrideProperty(fileExists, rc.nginxConfInclude, DefaultNginxConfInclude);
    var nginxHTTPInclude := OverrideProperty(fileExists, rc.nginxConfHTTPInclude, DefaultNginxConfHTTPInclude);
    op := new OverrideProperties.Literal(rc.composerFlags, rc.documentRoot, rc.frontControllerFile,
      [phpIni, phpFPM, nginxConf, nginxServerConfInclude, nginxHTTPInclude]);
  }

  /** The environment overrides of a buildpack layer: variable name to value, at build and at launch. */
  class Layer {
    var buildEnvironment: map<string, string>
    var launchEnvironment: map<string, string>
  }

  /**
   * `SetEnvVariables`: the composer arguments are overridden at build time only
   * when there are composer flags, and PHPRC at launch only when a php.ini
   * override applies; nothing else in either environment changes.
   */
  method SetEnvVariables(l: Layer, props: OverrideProperties)
    modifies l
    ensures l.buildEnvironment == if props.composerFlags != ""
      then old(l.buildEnvironment)[ComposerArgsEnv := props.composerFlags]
      else old(l.buildEnvironment)
    ensures l.launchEnvironment == if props.phpIniOverride
      then old(l.launchEnvironment)[PhpRcEnv := props.phpIniOverrideFileName]
      else old(l.launchEnvironment)
  {
    if props.composerFlags != "" {
      l.buildEnvironment := l.buildEnvironment[ComposerArgsEnv := props.composerFlags];
    }
    if props.phpIniOverride {
      l.launchEnvironment := l.launchEnvironment[PhpRcEnv := props.phpIniOverrideFileName];
    }
  }
}
