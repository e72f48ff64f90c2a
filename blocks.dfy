/**
 * The shape of a Slack message as both scripts build it: a plain-text
 * summary and an ordered list of typed blocks. The content of each block is
 * a type parameter, so that each script can say what its texts and fields
 * mean instead of spelling out their emoji and Markdown.
 */
module Blocks {

  datatype Block<T> =
    | Header(title: T)                // {"type": "header", "text": {...}}
    | Fields(fields: seq<T>)          // {"type": "section", "fields": [...]}
    | Section(text: T)                // {"type": "section", "text": {...}}
    | Divider                         // {"type": "divider"}
    | Context(elements: seq<T>)       // {"type": "context", "elements": [...]}

  datatype Message<T> = Message(text: T, blocks: seq<Block<T>>)

  /**
   * Each block ranks strictly above the one before it, so the ranks
   * strictly increase along the message: no kind of block repeats or
   * comes back.
   */
  predicate InRankOrder<T>(blocks: seq<Block<T>>, rank: Block<T> -> nat)
  {
    forall i :: 0 < i < |blocks| ==> rank(blocks[i - 1]) < rank(blocks[i])
  }

  /** Ranks that rise step by step rise between any two positions. */
  lemma {:induction false} InRankOrderPairwise<T>(blocks: seq<Block<T>>, rank: Block<T> -> nat, i: nat, j: nat)
    requires InRankOrder(blocks, rank) && i < j < |blocks|
    ensures rank(blocks[i]) < rank(blocks[j])
    decreases j - i
  {
    if i + 1 < j {
      InRankOrderPairwise(blocks, rank, i, j - 1);
    }
  }

  /** Conversely, of two blocks the one of lower rank comes first. */
  lemma LowerRankComesFirst<T>(blocks: seq<Block<T>>, rank: Block<T> -> nat, i: nat, j: nat)
    requires InRankOrder(blocks, rank) && i < |blocks| && j < |blocks|
    requires rank(blocks[i]) < rank(blocks[j])
    ensures i < j
  {
    if j < i {
      InRankOrderPairwise(blocks, rank, j, i);
    }
  }

  /** 1 for a block that is present, 0 for one that is not. */
  function Count(present: bool): nat { if present then 1 else 0 }

  /** A block that is appended only when `present` holds. */
  function Optional<T>(present: bool, b: Block<T>): (bs: seq<Block<T>>)
    ensures |bs| == Count(present)
    ensures b in bs <==> present
  {
    if present then [b] else []
  }
}
