/**
 * The command dispatch of `messageCreate` (Bot.go:96-137), as a function
 * from the message and the published state to the reply it sends, if any.
 * Sending the reply and its exact text layout are not modelled.
 */
module Commands {
  import opened Wrappers

  /** What the bot sends back. */
  datatype Reply =
    | HeightsListing(entries: set<(string, int)>)  // `.heights`: one line per known pool
    | Help                                          // `.help`: the fixed command list
    | MedianHeight(height: int)                     // `.height`: the aggregate height

  /** The commands the handler answers, matched exactly and case-sensitively. */
  const HeightsCommand: string := ".heights"
  const HelpCommand: string := ".help"
  const HeightCommand: string := ".height"

  /** The pool/height pairs the `.heights` listing prints, in no particular order. */
  function Listing(heights: map<string, int>): (entries: set<(string, int)>)
    ensures forall name, h :: (name, h) in entries <==> name in heights && heights[name] == h
  {
    set name | name in heights :: (name, heights[name])
  }

  /**
   * `messageCreate`: `fromSelf` says whether the author is the bot itself,
   * `heights` and `height` are the published snapshot and aggregate.
   */
  function MessageCreate(fromSelf: bool, content: string, heights: map<string, int>, height: int): (r: Option<Reply>)
    ensures fromSelf ==> r == None
    ensures r.Some? <==> !fromSelf && content in {HeightsCommand, HelpCommand, HeightCommand}
    ensures r.Some? && r.value.HeightsListing? ==> content == HeightsCommand
    ensures r.Some? && r.value.Help? ==> content == HelpCommand
    ensures r.Some? && r.value.MedianHeight? ==> content == HeightCommand && r.value.height == height
  {
    if fromSelf then None
    else if content == HeightsCommand then Some(HeightsListing(Listing(heights)))
    else if content == HelpCommand then Some(Help)
    else if content == HeightCommand then Some(MedianHeight(height))
    else None
  }

  /**
   * The `.heights` listing names exactly the pools of the current snapshot,
   * each with its polled height; a pool absent from the snapshot is absent
   * from the listing.
   */
  lemma HeightsListsSnapshot(heights: map<string, int>, height: int, name: string, h: int)
    ensures MessageCreate(false, HeightsCommand, heights, height).Some?
    ensures var r := MessageCreate(false, HeightsCommand, heights, height).value;
      r.HeightsListing? && ((name, h) in r.entries <==> name in heights && heights[name] == h)
  {
    assert HeightsCommand != HelpCommand && HeightsCommand != HeightCommand;
  }

  /**
   * The commands the help text advertises with an argument, `.height <pool>`
   * and `.claim <pool>`, get no reply: only the bare commands match.
   */
  lemma ArgumentCommandsIgnored(pool: string, heights: map<string, int>, height: int)
    ensures MessageCreate(false, ".height " + pool, heights, height) == None
    ensures MessageCreate(false, ".claim " + pool, heights, height) == None
  {
    var withPool := ".height " + pool;
    assert withPool[7] == ' ';
    assert |withPool| != |HeightCommand| && |withPool| >= |HeightCommand|;
    assert HeightsCommand[7] == 's' && HelpCommand[2] == 'e';
    assert withPool[..2] == ".h" && withPool[2] == 'e';
    var claim := ".claim " + pool;
    assert claim[1] == 'c';
  }
}
