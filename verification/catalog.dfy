/** The hardcoded list of boilerplates shown on the page, in display order. */
module Catalog {
  import opened Text

  /** One catalog entry. `logo` and `color` only affect presentation. */
  datatype Framework = Framework(
    id: string,
    name: string,
    description: string,
    logo: string,
    color: string,
    repository: string,
    category: string)

  /** Every repository in the catalog lives under this host prefix. */
  const GitHub := "https://github.com/"

  const SpringBoot := Framework(
    "spring-boot", "Spring Boot",
    "Enterprise-grade Java framework for building robust backend applications",
    "\U{2615}", "from-green-500 to-green-600",
    GitHub + "Genc/spring-boot-boilerplate", "Backend")

  const Angular := Framework(
    "angular", "Angular",
    "Powerful TypeScript framework for building dynamic web applications",
    "\U{1F170}\U{FE0F}", "from-red-500 to-red-600",
    GitHub + "ArslanAmeer/angular-boilerplate", "Frontend")

  const NextJs := Framework(
    "nextjs", "Next.js",
    "Full-stack React framework with SSR and static site generation",
    "\U{25B2}", "from-black to-gray-800",
    GitHub + "ixartz/Next-js-Boilerplate", "Full-stack")

  const Vue := Framework(
    "vue", "Vue.js",
    "Progressive JavaScript framework for building user interfaces",
    "\U{1F49A}", "from-green-400 to-emerald-500",
    GitHub + "vuesion/vuesion", "Frontend")

  const React := Framework(
    "react", "React",
    "Popular JavaScript library for building component-based UIs",
    "\U{269B}\U{FE0F}", "from-blue-500 to-cyan-500",
    GitHub + "react-boilerplate/react-boilerplate", "Frontend")

  const ReactNative := Framework(
    "react-native", "React Native",
    "Build native mobile apps using React and JavaScript",
    "\U{1F4F1}", "from-purple-500 to-pink-500",
    GitHub + "thecodingmachine/react-native-boilerplate", "Mobile")

  const Flutter := Framework(
    "flutter", "Flutter",
    "Google's UI toolkit for building natively compiled mobile apps",
    "\U{1F426}", "from-blue-400 to-blue-600",
    GitHub + "zubairehman/flutter_boilerplate_project", "Mobile")

  /** The catalog, in display order. */
  const Frameworks: seq<Framework> :=
    [SpringBoot, Angular, NextJs, Vue, React, ReactNative, Flutter]

  /** Ids serve as list keys, so no two entries may share one. */
  ghost predicate DistinctIds(c: seq<Framework>) {
    forall i, j :: 0 <= i < j < |c| ==> c[i].id != c[j].id
  }

  /** Download paths are appended to the repository, so it must not end in '/'. */
  ghost predicate WellFormedRepository(r: string) {
    IsPrefix(GitHub, r) && |r| > 0 && r[|r| - 1] != '/'
  }

  lemma CatalogIdsDistinct()
    ensures |Frameworks| == 7
    ensures DistinctIds(Frameworks)
  {
  }

  lemma GitHubRepository(path: string)
    requires |path| > 0 && path[|path| - 1] != '/'
    ensures WellFormedRepository(GitHub + path)
  {
    assert (GitHub + path)[..|GitHub|] == GitHub;
  }

  lemma CatalogRepositoriesWellFormed()
    ensures forall f :: f in Frameworks ==> WellFormedRepository(f.repository)
  {
    GitHubRepository("Genc/spring-boot-boilerplate");
    GitHubRepository("ArslanAmeer/angular-boilerplate");
    GitHubRepository("ixartz/Next-js-Boilerplate");
    GitHubRepository("vuesion/vuesion");
    GitHubRepository("react-boilerplate/react-boilerplate");
    GitHubRepository("thecodingmachine/react-native-boilerplate");
    GitHubRepository("zubairehman/flutter_boilerplate_project");
  }
}
