/** The metadata mapping that the frontmatter parser hands to the blog and
    to the linter, and the few Python built-ins the rules apply to it. */
module Frontmatter {
  import opened Wrappers

  /** A parsed YAML value. Only strings take part in the SEO rules; the other
      kinds matter for how `not v`, `str(v)` and `len(v)` behave on them. */
  datatype Value =
    | Text(s: string)                       // a YAML string
    | Null                                  // an empty YAML value (Python None)
    | Scalar(shown: string, truthy: bool)   // a number, boolean or date: `len` raises
    | Collection(shown: string, size: nat)  // a list or mapping: `len` is its size

  type Metadata = map<string, Value>

  /** Python truthiness, as `not meta[key]` tests it. */
  predicate Truthy(v: Value) {
    match v
    case Text(s) => s != ""
    case Null => false
    case Scalar(_, truthy) => truthy
    case Collection(_, size) => size > 0
  }

  /** `str(v)`, which is also how an f-string renders `v`. */
  function Str(v: Value): string {
    match v
    case Text(s) => s
    case Null => "None"
    case Scalar(shown, _) => shown
    case Collection(shown, _) => shown
  }

  /** `len(v)`; `None` stands for the TypeError it raises. */
  function Len(v: Value): (n: Option<nat>)
    ensures v.Text? ==> n == Some(|v.s|)
    ensures n.None? <==> v.Null? || v.Scalar?
    ensures v.Collection? ==> n == Some(v.size)
  {
    match v
    case Text(s) => Some(|s|)
    case Null => None
    case Scalar(_, _) => None
    case Collection(_, size) => Some(size)
  }

  /** `meta.get(key, default)`. */
  function Get(meta: Metadata, key: string, default: Value): (v: Value)
    ensures key in meta ==> v == meta[key]
    ensures key !in meta ==> v == default
  {
    if key in meta then meta[key] else default
  }

  /** How an f-string renders the result of `os.getenv`: an unset variable
      prints as "None". */
  function Shown(setting: Option<string>): string {
    setting.GetOr("None")
  }
}
