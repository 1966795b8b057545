/**
  The generative-model side of the script: the prompt built from a product,
  the truncated front-matter description inside it, and the cleaning of the
  model's reply. The model call itself is a parameter: a function from the
  prompt to the reply text, or `None` when the call raised.
 */
module Generator {
  import opened Wrappers
  import opened Text
  import opened Dates
  import opened Fetcher

  const ModelName: string := "gemini-flash-latest"

  /** The fence that opens a block the model labelled as Markdown. */
  const MarkdownFence: string := "```markdown"

  /** A bare code fence. */
  const Fence: string := "```"

  // ---------------------------------------------------------------------
  // Cleaning the reply
  // ---------------------------------------------------------------------

  /**
    `text.replace("```markdown", "").replace("```", "").strip()`: whatever the
    reply, the result holds no code fence of either kind and neither starts
    nor ends with whitespace.
   */
  function Clean(text: string): (r: string)
    ensures !Contains(r, Fence) && !Contains(r, MarkdownFence)
    ensures Trimmed(r)
  {
    var unlabelled := Replace(text, MarkdownFence, "");
    var unfenced := Replace(unlabelled, Fence, "");
    assert Fence == Repeat('`', 3);
    RemoveRunLeavesNone(unlabelled, '`', 3);
    StripKeepsAbsent(unfenced, Fence);
    assert MarkdownFence == Fence + "markdown";
    ContainsLonger(Strip(unfenced), Fence, "markdown");
    Strip(unfenced)
  }

  /**
    A reply that holds no code fence and is already trimmed comes through
    cleaning unchanged: cleaning removes fences and surrounding whitespace
    and nothing else.
   */
  lemma CleanKeepsCleanText(text: string)
    requires !Contains(text, Fence) && Trimmed(text)
    ensures Clean(text) == text
  {
    assert MarkdownFence == Fence + "markdown";
    ContainsLonger(text, Fence, "markdown");
    ReplaceAbsent(text, MarkdownFence, "");
    ReplaceAbsent(text, Fence, "");
    StripTrimmed(text);
  }

  /** Cleaning an already cleaned reply returns it unchanged. */
  lemma CleanIdempotent(text: string)
    ensures Clean(Clean(text)) == Clean(text)
  {
    CleanKeepsCleanText(Clean(text));
  }

  // ---------------------------------------------------------------------
  // The prompt
  // ---------------------------------------------------------------------

  /** At most `limit` characters from the front of `s`: Python's `s[:limit]`. */
  function Head(s: string, limit: nat): (r: string)
    ensures |r| == if |s| <= limit then |s| else limit
    ensures r <= s
  {
    if |s| <= limit then s else s[..limit]
  }

  /**
    `description[:100] + "..."`: the first hundred characters of the
    description (all of it when shorter), then an ellipsis.
   */
  function FrontMatterDescription(description: string): (r: string)
    ensures |r| == (if |description| <= 100 then |description| else 100) + 3
    ensures r[..|r| - 3] <= description
    ensures r[|r| - 3..] == "..."
    ensures |description| <= 100 ==> r == description + "..."
  {
    var head := Head(description, 100);
    var r := head + "...";
    assert r[..|r| - 3] == head;
    r
  }

  /** One line of the prompt template, carrying the template's indentation. */
  function Line(text: string): string
  {
    "    " + text + "\n"
  }

  /** Lines laid out one after another. */
  function Lines(texts: seq<string>): string
  {
    if texts == [] then "" else Line(texts[0]) + Lines(texts[1..])
  }

  /** The `title:` field of the requested front-matter. */
  function TitleField(p: Product): string
  {
    "title: \"" + p.name + " - " + p.tagline + "\""
  }

  /** The `date:` field of the requested front-matter. */
  function DateField(now: Timestamp): string
    requires ValidTimestamp(now)
  {
    "date: " + FormatTimestamp(now)
  }

  /** The `description:` field of the requested front-matter. */
  function DescriptionField(p: Product): string
  {
    "description: \"" + FrontMatterDescription(p.description) + "\""
  }

  /** The text of the link to the product's website ("to the official site"). */
  const LinkText: string := "[公式サイトへ]"

  /** The link to the product's website that closes the prompt. */
  function WebsiteLink(p: Product): string
  {
    LinkText + "(" + p.website + ")"
  }

  /** The lines of the prompt template, without their indentation. */
  function PromptLines(p: Product, now: Timestamp): seq<string>
    requires ValidTimestamp(now)
  {
    [ "---",
      TitleField(p),
      DateField(now),
      "draft: false",
      DescriptionField(p),
      "---",
      "# " + p.name,
      p.description,
      "",
      WebsiteLink(p),
      "(魅力的な日本語紹介記事をMarkdownで書いてください)" ]
  }

  /** The prompt text sent to the model, as the template lays it out. */
  function Prompt(p: Product, now: Timestamp): string
    requires ValidTimestamp(now)
  {
    "\n" + Lines(PromptLines(p, now)) + "    "
  }

  /** Every line of a layout occurs in it. */
  lemma {:induction false} LinesContainEach(texts: seq<string>, k: nat)
    requires k < |texts|
    ensures Contains(Lines(texts), texts[k])
    decreases k
  {
    var rest := Lines(texts[1..]);
    assert Lines(texts) == "    " + texts[0] + ("\n" + rest);
    if k == 0 {
      ContainsMiddle("    ", texts[0], "\n" + rest);
    } else {
      LinesContainEach(texts[1..], k - 1);
      assert Lines(texts)[|Line(texts[0])|..] == rest;
      ContainsInSuffix(Lines(texts), texts[k], |Line(texts[0])|);
    }
  }

  /** Every line of the template, without its indentation, occurs in the prompt. */
  lemma PromptContainsLine(p: Product, now: Timestamp, k: nat)
    requires ValidTimestamp(now)
    requires k < |PromptLines(p, now)|
    ensures Contains(Prompt(p, now), PromptLines(p, now)[k])
  {
    var body := Lines(PromptLines(p, now));
    ContainsMiddle("\n", body, "    ");
    LinesContainEach(PromptLines(p, now), k);
    ContainsTransitive(Prompt(p, now), body, PromptLines(p, now)[k]);
  }

  /**
    The prompt asks for front-matter carrying the product's title and
    tagline, the timestamp and the truncated description.
   */
  lemma PromptCarriesFrontMatter(p: Product, now: Timestamp)
    requires ValidTimestamp(now)
    ensures Contains(Prompt(p, now), TitleField(p))
    ensures Contains(Prompt(p, now), DateField(now))
    ensures Contains(Prompt(p, now), DescriptionField(p))
  {
    var lines := PromptLines(p, now);
    assert lines[1] == TitleField(p) && lines[2] == DateField(now) && lines[4] == DescriptionField(p);
    PromptContainsLine(p, now, 1);
    PromptContainsLine(p, now, 2);
    PromptContainsLine(p, now, 4);
  }

  /** The link carries the product's website in parentheses. */
  lemma WebsiteLinkTarget(p: Product)
    ensures Contains(WebsiteLink(p), "(" + p.website + ")")
  {
    var link := "(" + p.website + ")";
    assert WebsiteLink(p)[|LinkText|..] == link;
    assert Contains(link, link);
    ContainsInSuffix(WebsiteLink(p), link, |LinkText|);
  }

  /** The prompt links the product's website. */
  lemma PromptLinksWebsite(p: Product, now: Timestamp)
    requires ValidTimestamp(now)
    ensures Contains(Prompt(p, now), "(" + p.website + ")")
  {
    PromptContainsLine(p, now, 9);
    WebsiteLinkTarget(p);
    ContainsTransitive(Prompt(p, now), WebsiteLink(p), "(" + p.website + ")");
  }

  // ---------------------------------------------------------------------
  // generate_article
  // ---------------------------------------------------------------------

  /**
    `generate_article`: send the prompt, and return the cleaned reply, or
    nothing exactly when the model call raised.
   */
  function GenerateArticle(p: Product, now: Timestamp, respond: string -> Option<string>): (r: Option<string>)
    requires ValidTimestamp(now)
    ensures r.Some? <==> respond(Prompt(p, now)).Some?
    ensures r.Some? ==> r.value == Clean(respond(Prompt(p, now)).value)
  {
    match respond(Prompt(p, now))
    case None => None
    case Some(text) => Some(Clean(text))
  }
}
