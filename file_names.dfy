/** The `.md` test that both the linter and the blog apply to a directory
    listing, and the suffix strip that turns a file name into a post slug. */
module FileNames {

  const MarkdownSuffix: string := ".md"

  /** `name.endswith('.md')`. */
  predicate IsMarkdown(name: string) {
    |name| >= |MarkdownSuffix| && name[|name| - |MarkdownSuffix|..] == MarkdownSuffix
  }

  /** `name[:-3]` on a name that ends with `.md`. */
  function Stem(name: string): (stem: string)
    requires IsMarkdown(name)
    ensures stem + MarkdownSuffix == name
  {
    var stem := name[..|name| - |MarkdownSuffix|];
    assert stem + MarkdownSuffix == name by {
      assert name == name[..|name| - |MarkdownSuffix|] + name[|name| - |MarkdownSuffix|..];
    }
    stem
  }

  lemma StemOfSuffixed(stem: string)
    ensures IsMarkdown(stem + MarkdownSuffix) && Stem(stem + MarkdownSuffix) == stem
  {
    var name := stem + MarkdownSuffix;
    assert name[|name| - |MarkdownSuffix|..] == MarkdownSuffix;
  }
}
