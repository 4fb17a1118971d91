/**
 * The configuration types shared by the generator: the project types and
 * the resolved project configuration.
 */
module Config {
  import opened Results

  /**
   * The seven project types of the enumeration, plus `Other` for any other
   * string: the command line passes `--type` through unchecked, so a project
   * type can be a string that is not a member of the enumeration.
   */
  datatype ProjectType = Webapp | Api | Fullstack | Cli | Library | Mobile | Desktop | Other(value: string)

  /** The string each enumeration member stands for. */
  function TypeValue(t: ProjectType): string {
    match t
    case Webapp => "webapp"
    case Api => "api"
    case Fullstack => "fullstack"
    case Cli => "cli"
    case Library => "library"
    case Mobile => "mobile"
    case Desktop => "desktop"
    case Other(s) => s
  }

  /** The enumeration's members in declaration order (what Object.values reports). */
  const EnumMembers: seq<ProjectType> := [Webapp, Api, Fullstack, Cli, Library, Mobile, Desktop]

  predicate IsMemberValue(s: string) {
    s in {"webapp", "api", "fullstack", "cli", "library", "mobile", "desktop"}
  }

  /** `Other` only carries strings that no member stands for. */
  predicate WellFormed(t: ProjectType) {
    t.Other? ==> !IsMemberValue(t.value)
  }

  /** The project type a string denotes: the member with that value, or `Other`. */
  function ParseType(s: string): (t: ProjectType)
    ensures WellFormed(t)
    ensures TypeValue(t) == s
    ensures IsMemberValue(s) <==> t in EnumMembers
  {
    match s
    case "webapp" => Webapp
    case "api" => Api
    case "fullstack" => Fullstack
    case "cli" => Cli
    case "library" => Library
    case "mobile" => Mobile
    case "desktop" => Desktop
    case _ => Other(s)
  }

  /** A well-formed project type is recovered from its string. */
  lemma ParseTypeValue(t: ProjectType)
    requires WellFormed(t)
    ensures ParseType(TypeValue(t)) == t
  {
  }

  /** The members stand for distinct strings. */
  lemma MemberValuesDistinct()
    ensures forall i, j | 0 <= i < j < |EnumMembers| :: TypeValue(EnumMembers[i]) != TypeValue(EnumMembers[j])
  {
  }

  /** R3Config: the resolved configuration of the project to generate. */
  datatype R3Config = R3Config(
    name: string,
    version: string,
    description: Option<string>,
    author: Option<string>,
    license: Option<string>,
    projectType: ProjectType,
    features: seq<string>)
}
