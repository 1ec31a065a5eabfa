/** The observable effects of the build: every shell command, filesystem
    call, compiler call and log line the build issues is recorded as an
    `Action`, in the order it happens. The outcomes of those calls (exit
    codes, whether a compile throws) are inputs of the model. */
module Effects {
  import opened Outcomes
  import opened PhpArray

  /** The four template trees the build compiles. */
  datatype ViewRoot = AdminViews | WebViews | SimpleViews | CommonPartials

  /** The package managers run in the dist directory, or in the earlier
      working directory when `chdir` into it fails. */
  datatype Installer = Composer | Npm | Bower

  datatype Action =
    | RemoveTree(path: string)                           // exec("rm -Rf ...")
    | MakeDir(path: string)                              // mkdir
    | CompileTemplate(root: ViewRoot, path: string, voltCacheDir: string)
    | LogError(message: string)                          // error_log
    | CopyTree(src: string, dst: string)                 // `cp -R ...`
    | IoncubeEncode(encoder: string, src: string, into: string)
    | WriteScript(path: string)                          // file_put_contents of a fixed script
    | MakeExecutable(path: string)                       // chmod 0775
    | CopyFile(src: string, dst: string)                 // copy
    | EmitYaml(path: string, doc: seq<Entry>)            // yaml_emit_file
    | RunInstaller(tool: Installer, dir: string)         // exec of an installer, cwd `dir`
    | CompileLocale(locale: Key, cacheDir: string)       // LocaleCompiler::compileLocale
    | BuildBundle(dir: string)                           // exec("cd dir && npm run build")

  /** What one step of the build did and how it ended. */
  datatype StageResult = StageResult(actions: seq<Action>, outcome: Outcome)
}
