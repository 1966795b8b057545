/**
  The script's `__main__` block: check both credentials, create the posts
  directory, fetch the top product, generate the article and write it. A
  run is described by what each stage did to the outside world and by its
  exit status. Everything the run reads from outside (the ranking
  reply, the model, the clock) comes in as a `World`.
 */
module Pipeline {
  import opened Wrappers
  import opened Text
  import opened Dates
  import opened Fetcher
  import opened Generator
  import opened Writer

  /** The two environment variables, empty when unset. */
  datatype Credentials = Credentials(phAccessToken: string, geminiApiKey: string)

  /** The query sent to the ranking API. */
  datatype Query = Query(url: string, authorization: string)

  /** The call made to the generative model. */
  datatype ModelCall = ModelCall(apiKey: string, model: string, prompt: string)

  /** The file written. */
  datatype FileWrite = FileWrite(path: string, content: string)

  /**
    What one run did to the outside world, stage by stage, and its exit
    status: whether it created the posts directory, the query it sent, the
    model call it made and the file it wrote (`None` for a stage not reached).
   */
  datatype Run = Run(
    createdDir: Option<string>,
    query: Option<Query>,
    modelCall: Option<ModelCall>,
    written: Option<FileWrite>,
    exitCode: int)

  /**
    What the run observes: the reply to the ranking query (`None` when the
    request raised), the model as a function from prompt to reply text
    (`None` when the call raised), the clock reading taken for the prompt
    and the one taken for the file name.
   */
  datatype World = World(
    reply: Option<Reply>,
    respond: string -> Option<string>,
    promptTime: Timestamp,
    writeDate: Date)

  predicate ValidWorld(w: World)
  {
    ValidTimestamp(w.promptTime) && ValidDate(w.writeDate)
  }

  /** Python's `not s` for a string. */
  predicate Blank(s: string)
  {
    s == []
  }

  predicate HasCredentials(creds: Credentials)
  {
    !Blank(creds.phAccessToken) && !Blank(creds.geminiApiKey)
  }

  /** The article `generate_article` returns for the product the query produced. */
  function Article(world: World, p: Product): Option<string>
    requires ValidWorld(world)
  {
    GenerateArticle(p, world.promptTime, world.respond)
  }

  /** One run of the script, stage by stage as the main block runs them. */
  function Main(creds: Credentials, world: World, isAlnum: char -> bool): (r: Run)
    requires ValidWorld(world)
    ensures r.exitCode == (if HasCredentials(creds) then 0 else 1)
    ensures r.createdDir.Some? <==> r.query.Some?
    ensures r.modelCall.Some? ==> r.query.Some?
    ensures r.written.Some? ==> r.modelCall.Some?
  {
    if !HasCredentials(creds) then Run(None, None, None, None, 1)
    else
      var query := Query(Endpoint, Authorization(creds.phAccessToken));
      match TopProduct(world.reply)
      case None => Run(Some(PostsDir), Some(query), None, None, 0)
      case Some(p) =>
        var call := ModelCall(creds.geminiApiKey, ModelName, Prompt(p, world.promptTime));
        var article := Article(world, p);
        if article.None? || Blank(article.value) then Run(Some(PostsDir), Some(query), Some(call), None, 0)
        else
          var file := FileWrite(PostPath(world.writeDate, p.name, isAlnum), article.value);
          Run(Some(PostsDir), Some(query), Some(call), Some(file), 0)
  }

  /**
    Without both credentials the run exits with status 1 before touching
    anything: no directory, no query, no model call, no file.
   */
  lemma MissingCredentialStopsEverything(creds: Credentials, world: World, isAlnum: char -> bool)
    requires ValidWorld(world)
    ensures var r := Main(creds, world, isAlnum);
      !HasCredentials(creds) <==> r == Run(None, None, None, None, 1)
  {
  }

  /**
    With both credentials the run creates the posts directory and sends one
    query to the ranking endpoint, bearing the access token.
   */
  lemma QueryOnlyWithCredentials(creds: Credentials, world: World, isAlnum: char -> bool)
    requires ValidWorld(world)
    ensures var r := Main(creds, world, isAlnum);
      && (r.query.Some? <==> HasCredentials(creds))
      && (r.query.Some? ==>
            r.createdDir == Some(PostsDir) && r.query.value == Query(Endpoint, "Bearer " + creds.phAccessToken))
  {
  }

  /**
    The model is called exactly when the credentials are present and the
    query produced a product, and it is sent that product's prompt.
   */
  lemma ModelCalledOnlyForProduct(creds: Credentials, world: World, isAlnum: char -> bool)
    requires ValidWorld(world)
    ensures var r := Main(creds, world, isAlnum);
      && (r.modelCall.Some? <==> HasCredentials(creds) && TopProduct(world.reply).Some?)
      && (r.modelCall.Some? ==>
            r.modelCall.value == ModelCall(creds.geminiApiKey, ModelName,
              Prompt(TopProduct(world.reply).value, world.promptTime)))
  {
  }

  /**
    A file is written exactly when the credentials are present, the query
    produced a product and the cleaned reply is a non-empty text (Python's
    `if c:`).
   */
  lemma WriteOnlyWhenEveryStageSucceeds(creds: Credentials, world: World, isAlnum: char -> bool)
    requires ValidWorld(world)
    ensures Main(creds, world, isAlnum).written.Some? <==>
      && HasCredentials(creds)
      && TopProduct(world.reply).Some?
      && Article(world, TopProduct(world.reply).value).Some?
      && !Blank(Article(world, TopProduct(world.reply).value).value)
  {
  }

  /**
    The written file is named after the write date and the sanitised
    product name, and holds the article `generate_article` returned: a
    non-empty, trimmed text without code fences.
   */
  lemma WrittenArticle(creds: Credentials, world: World, isAlnum: char -> bool)
    requires ValidWorld(world)
    requires Main(creds, world, isAlnum).written.Some?
    ensures TopProduct(world.reply).Some?
    ensures var file := Main(creds, world, isAlnum).written.value;
      && file.path == PostPath(world.writeDate, TopProduct(world.reply).value.name, isAlnum)
      && file.content == Article(world, TopProduct(world.reply).value).value
      && file.content != []
      && !Contains(file.content, Fence)
      && Trimmed(file.content)
  {
  }

  /**
    Two runs that both write name the same path exactly when they run on
    the same day for products whose names sanitise alike. Runs on different
    days never share a path.
   */
  lemma SameDaySameNameSamePath(
    creds1: Credentials, world1: World, creds2: Credentials, world2: World, isAlnum: char -> bool)
    requires ValidWorld(world1) && ValidWorld(world2)
    requires Main(creds1, world1, isAlnum).written.Some? && Main(creds2, world2, isAlnum).written.Some?
    ensures
      var f1, f2 := Main(creds1, world1, isAlnum).written.value, Main(creds2, world2, isAlnum).written.value;
      var n1, n2 := TopProduct(world1.reply).value.name, TopProduct(world2.reply).value.name;
      (f1.path == f2.path <==>
         world1.writeDate == world2.writeDate && Sanitise(n1, isAlnum) == Sanitise(n2, isAlnum))
  {
    WrittenArticle(creds1, world1, isAlnum);
    WrittenArticle(creds2, world2, isAlnum);
    var n1, n2 := TopProduct(world1.reply).value.name, TopProduct(world2.reply).value.name;
    PostPathSameFile(world1.writeDate, n1, world2.writeDate, n2, isAlnum);
  }
}
