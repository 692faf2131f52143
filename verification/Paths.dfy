/** Which repository paths are regenerable artifacts (src/live-workspace.js:343-350, src/cloud-storage.js:37-55). */
module Paths {
  import opened Basics
  import opened Strings

  const TOOLING_DIRECTORIES: set<string> := {
    "node_modules", "vendor", ".venv", "venv", "dist", "build", "out", "target",
    "coverage", ".cache", "__pycache__", ".next", ".nuxt", ".turbo", ".vinext",
    ".wrangler", ".gitpigeon-build"
  }
  const SKIP_DIRECTORIES: set<string> := TOOLING_DIRECTORIES + {".git", ".hg", ".svn"}
  const SKIP_FILES: set<string> := {".ds_store", "thumbs.db"}
  const SKIP_SUFFIXES: set<string> := {".log", ".tmp", ".pyc", ".pyo", ".tsbuildinfo"}

  predicate IsToolingDirectory(name: string) {
    Lower(name) in TOOLING_DIRECTORIES
  }

  predicate IsGenerated(file: Path) {
    var parts := Split(file, '/');
    var name := Lower(parts[|parts| - 1]);
    || (exists i :: 0 <= i < |parts| - 1 && Lower(parts[i]) in SKIP_DIRECTORIES)
    || name in SKIP_FILES
    || (exists suffix :: suffix in SKIP_SUFFIXES && EndsWith(name, suffix))
  }

  lemma ShortNameIsNotSkipped(lower: string)
    requires |lower| <= 3
    ensures lower !in SKIP_FILES && forall suffix :: suffix in SKIP_SUFFIXES ==> !EndsWith(lower, suffix)
  {
    assert forall name :: name in SKIP_FILES ==> |name| > 3;
  }

  lemma ShortNameIsShared(name: Path)
    requires |name| <= 3 && '/' !in name
    ensures !IsGenerated(name)
  {
    SplitPart(name, "", '/');
    ShortNameIsNotSkipped(Lower(name));
    assert Split(name, '/') == [name];
  }
}
