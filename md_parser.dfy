/**
 * `gptMdFileParser`: the configuration of a prompt file is the JSON block at
 * its head, normalised, with the `userPrompt` and `systemPrompt` sections of
 * the document laid over it, handed to the resolver together with the user's
 * configuration.
 */
module MdParser {
  import opened Wrappers
  import opened Text
  import opened Title
  import opened Heading
  import opened Sections
  import opened SectionsSpec
  import opened Fence

  /** A JSON value, as the parser of the front-matter block returns it. */
  datatype Json = JNull | JBool(b: bool) | JNum(n: int) | JStr(s: string) | JArr(items: seq<Json>) | JObj(fields: map<string, Json>)

  /** A single-file configuration object: its fields by name. */
  type Config = map<string, Json>

  const EmptyObject: Json := JObj(map[])

  /**
   * `configJsonString ? tryParseJson(configJsonString) : {}`: the parser
   * sees the trimmed capture, and an absent or blank capture gives `{}`.
   */
  function RawConfig(content: string, parse: string -> Json): (r: Json)
    ensures (forall cap :: !JsonFenced(content, cap)) ==> r == EmptyObject
    ensures forall cap :: JsonFenced(content, cap) ==>
              r == if Every(cap, IsSpace) then EmptyObject else parse(Trim(cap))
  {
    JsonFenceDecides(content);
    match JsonFence(content)
    case None => EmptyObject
    case Some(cap) =>
      assert JsonFenced(content, cap);
      var text := Trim(cap);
      if text == "" then EmptyObject else parse(text)
  }

  /** One item of `resolveTitleConfig`: a configuration key and the heading levels searched for it. */
  datatype TitleConfig = TitleConfig(title: string, levels: seq<string>)

  const ResolveTitleConfig: seq<TitleConfig> :=
    [TitleConfig("userPrompt", ["#", "##"]), TitleConfig("systemPrompt", ["#", "##"])]

  predicate ValidItem(item: TitleConfig) {
    ValidTitleName(item.title) && ValidLevels(item.levels)
  }

  lemma {:induction false} ResolveTitleConfigValid()
    ensures forall i :: 0 <= i < |ResolveTitleConfig| ==> ValidItem(ResolveTitleConfig[i])
  {
    assert Every("userPrompt", IsLetter) && Every("systemPrompt", IsLetter);
    assert IsMarker("#") && IsMarker("##");
  }

  /** `Object.values(titleContentsMap)?.[0] ?? ''`: the first entry's text, or `''`. */
  function FirstValue(sections: seq<Entry>): string {
    if |sections| == 0 then "" else sections[0].body
  }

  /**
   * The value the reduce stores for one item. The scanner is modelled for
   * letter titles and `#` levels only, which the items of
   * `ResolveTitleConfig` are; another item stores `''`.
   */
  function TitlePrompt(item: TitleConfig, content: string): string {
    if ValidItem(item)
    then FirstValue(ScanLines(item.levels, SplitCamel(item.title), SplitLines(content)).sections)
    else ""
  }

  /** The value stored for a title is `''` when no line of the document is a heading with that title at one of its levels. */
  lemma {:induction false} TitlePromptMissing(item: TitleConfig, content: string)
    requires ValidItem(item)
    requires var lines := SplitLines(content);
             NoTitleHeadingBefore(item.levels, SplitCamel(item.title), lines, |lines|)
    ensures TitlePrompt(item, content) == ""
  {
    var words, lines := SplitCamel(item.title), SplitLines(content);
    NoHeadingNoEntry(item.levels, words, lines);
  }

  /**
   * Otherwise it is the body of the sections at the marker of the first
   * such heading in document order, whatever the order of the levels in the
   * list.
   */
  lemma {:induction false} TitlePromptFirst(item: TitleConfig, content: string, j: nat, h: string)
    requires ValidItem(item)
    requires var lines := SplitLines(content);
             && j < |lines| && h in item.levels && TitleHeading(lines[j], h, SplitCamel(item.title))
             && NoTitleHeadingBefore(item.levels, SplitCamel(item.title), lines, j)
    ensures var words, lines := SplitCamel(item.title), SplitLines(content);
            TitlePrompt(item, content)
            == Gathered(lines, Heads(item.levels, words, lines), Closers(item.levels, lines), |lines|, h)
  {
    FirstEntry(item.levels, SplitCamel(item.title), SplitLines(content), j, h);
  }

  /**
   * `resolveTitleConfig.reduce(...)` after its first `n` items: each item's
   * title is spread over the map built so far, so the map has one key per
   * title and a title's value comes from its last item.
   */
  function Prompts(items: seq<TitleConfig>, n: nat, content: string): (r: map<string, string>)
    requires n <= |items|
    ensures forall i :: 0 <= i < n ==> items[i].title in r
    ensures forall t :: t in r ==> exists i :: 0 <= i < n && items[i].title == t
    ensures forall i :: 0 <= i < n && (forall j :: i < j < n ==> items[j].title != items[i].title) ==>
              r[items[i].title] == TitlePrompt(items[i], content)
  {
    Spread(items, n, item => TitlePrompt(item, content))
  }

  /**
   * What the reduce over the first `n` items promises of its map `r`: one
   * key per title, and each title's value computed by `value` from its last item.
   */
  predicate Spreads(items: seq<TitleConfig>, n: nat, value: TitleConfig -> string, r: map<string, string>)
    requires n <= |items|
  {
    && (forall i :: 0 <= i < n ==> items[i].title in r)
    && (forall t :: t in r ==> exists i :: 0 <= i < n && items[i].title == t)
    && (forall i :: 0 <= i < n && (forall j :: i < j < n ==> items[j].title != items[i].title) ==>
          r[items[i].title] == value(items[i]))
  }

  /** The same reduce, for any way `value` of computing the value an item stores. */
  function Spread(items: seq<TitleConfig>, n: nat, value: TitleConfig -> string): (r: map<string, string>)
    requires n <= |items|
    ensures Spreads(items, n, value, r)
  {
    if n == 0 then map[]
    else
      var prev := Spread(items, n - 1, value);
      SpreadStep(items, n, value, prev);
      prev[items[n - 1].title := value(items[n - 1])]
  }

  /** Spreading item `n - 1` over the map of the first `n - 1` items. */
  lemma {:induction false} SpreadStep(items: seq<TitleConfig>, n: nat, value: TitleConfig -> string,
                                      prev: map<string, string>)
    requires 0 < n <= |items| && Spreads(items, n - 1, value, prev)
    ensures Spreads(items, n, value, prev[items[n - 1].title := value(items[n - 1])])
  {
    var t := items[n - 1].title;
    var r := prev[t := value(items[n - 1])];
    forall i | 0 <= i < n && (forall j :: i < j < n ==> items[j].title != items[i].title)
      ensures r[items[i].title] == value(items[i])
    {
      if i < n - 1 {
        assert items[n - 1].title != items[i].title;
      }
    }
    forall u | u in r
      ensures exists i :: 0 <= i < n && items[i].title == u
    {
      if u == t {
        assert items[n - 1].title == u;
      } else {
        assert u in prev;
      }
    }
  }

  /**
   * `{...singleFileConfig, ...configKeyValueMap}`: every prompt key takes the
   * prompt, whatever the configuration held under it, and every other key
   * keeps its value.
   */
  function Merge(config: Config, prompts: map<string, string>): (r: Config)
    ensures r.Keys == config.Keys + prompts.Keys
    ensures forall k :: k in prompts ==> r[k] == JStr(prompts[k])
    ensures forall k :: k in config && k !in prompts ==> r[k] == config[k]
  {
    config + map k | k in prompts :: JStr(prompts[k])
  }

  /** The single-file configuration before resolution: normalised JSON block, prompts merged over it. */
  function FileConfig(content: string, parse: string -> Json, normalize: Json -> Config): Config {
    ResolveTitleConfigValid();
    Merge(normalize(RawConfig(content, parse)), Prompts(ResolveTitleConfig, |ResolveTitleConfig|, content))
  }

  /**
   * The parser proper; reading the file is left to the caller, and
   * `tryParseJson`, `getSingleFileConfig` and `resolveSingleFileConfig` are
   * its parameters `parse`, `normalize` and `resolve`.
   */
  function GptMdFileParser<U, R>(content: string, userConfig: U, parse: string -> Json,
                                 normalize: Json -> Config, resolve: (U, Config) -> R): R
  {
    resolve(userConfig, FileConfig(content, parse, normalize))
  }

  /** The reduce over `ResolveTitleConfig` stores exactly the two prompts. */
  lemma {:induction false} ResolvedPrompts(content: string)
    ensures var p := Prompts(ResolveTitleConfig, |ResolveTitleConfig|, content);
            && p == map["userPrompt" := TitlePrompt(ResolveTitleConfig[0], content),
                        "systemPrompt" := TitlePrompt(ResolveTitleConfig[1], content)]
  {
    var items := ResolveTitleConfig;
    assert Prompts(items, 1, content) == map[][items[0].title := TitlePrompt(items[0], content)];
  }

  /**
   * What the resolver receives: `userPrompt` and `systemPrompt` are always
   * set, to the extracted text even when that is `''`, and every other key
   * of the normalised JSON block passes through unchanged.
   */
  lemma {:induction false} FileConfigFields(content: string, parse: string -> Json, normalize: Json -> Config)
    ensures var c := FileConfig(content, parse, normalize);
            var base := normalize(RawConfig(content, parse));
            && c.Keys == base.Keys + {"userPrompt", "systemPrompt"}
            && c["userPrompt"] == JStr(TitlePrompt(ResolveTitleConfig[0], content))
            && c["systemPrompt"] == JStr(TitlePrompt(ResolveTitleConfig[1], content))
            && forall k :: k in base && k != "userPrompt" && k != "systemPrompt" ==> c[k] == base[k]
  {
    ResolvedPrompts(content);
    MergePrompts(normalize(RawConfig(content, parse)),
                 TitlePrompt(ResolveTitleConfig[0], content), TitlePrompt(ResolveTitleConfig[1], content));
  }

  /** Merging the two prompts over a configuration. */
  lemma {:induction false} MergePrompts(base: Config, user: string, system: string)
    ensures var c := Merge(base, map["userPrompt" := user, "systemPrompt" := system]);
            && c.Keys == base.Keys + {"userPrompt", "systemPrompt"}
            && c["userPrompt"] == JStr(user)
            && c["systemPrompt"] == JStr(system)
            && forall k :: k in base && k != "userPrompt" && k != "systemPrompt" ==> c[k] == base[k]
  {
  }

  /**
   * A document with no `userPrompt` heading gives `userPrompt: ''`, which
   * replaces whatever the JSON block set.
   */
  lemma {:induction false} MissingPromptIsEmpty(content: string, parse: string -> Json, normalize: Json -> Config)
    requires var lines := SplitLines(content);
             NoTitleHeadingBefore(["#", "##"], ["user", "Prompt"], lines, |lines|)
    ensures var c := FileConfig(content, parse, normalize);
            "userPrompt" in c && c["userPrompt"] == JStr("")
  {
    UserPromptMissing(content);
    FileConfigFields(content, parse, normalize);
  }

  /** The `userPrompt` item stores `''` when the document has no `userPrompt` heading at `#` or `##`. */
  lemma {:induction false} UserPromptMissing(content: string)
    requires var lines := SplitLines(content);
             NoTitleHeadingBefore(["#", "##"], ["user", "Prompt"], lines, |lines|)
    ensures TitlePrompt(ResolveTitleConfig[0], content) == ""
  {
    var item := ResolveTitleConfig[0];
    assert item == TitleConfig("userPrompt", ["#", "##"]);
    SplitUserPrompt();
    ResolveTitleConfigValid();
    TitlePromptMissing(item, content);
  }

  /** The resolver is applied once, to the user's configuration and the merged file configuration. */
  lemma {:induction false} ResolverInput<U, R>(content: string, userConfig: U, parse: string -> Json,
                                               normalize: Json -> Config, resolve: (U, Config) -> R)
    ensures var c := FileConfig(content, parse, normalize);
            && GptMdFileParser(content, userConfig, parse, normalize, resolve) == resolve(userConfig, c)
            && "userPrompt" in c && "systemPrompt" in c
            && c["userPrompt"] == JStr(TitlePrompt(ResolveTitleConfig[0], content))
            && c["systemPrompt"] == JStr(TitlePrompt(ResolveTitleConfig[1], content))
  {
    FileConfigFields(content, parse, normalize);
  }
}
