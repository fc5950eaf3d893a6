/** The plain-text rendering of a record for the clipboard
  * (`src/shared/utils/format.ts`). */
module Format {
  import opened Wrappers
  import opened Types
  import opened Strings

  const UnknownAuthor: string := "未知作者"
  const NoBody: string := "无正文内容"

  /** `item.author?.name || '未知作者'`. */
  function AuthorName(item: ContentItem): (name: string)
    ensures item.author.name != "" ==> name == item.author.name
    ensures item.author.name == "" ==> name == UnknownAuthor
  {
    if item.author.name != "" then item.author.name else UnknownAuthor
  }

  /** `item.fullContent || item.contentExcerpt || '无正文内容'`. */
  function CopyBody(item: ContentItem): (body: string)
    ensures TruthyText(item.fullContent) ==> body == item.fullContent.value
    ensures !TruthyText(item.fullContent) && item.contentExcerpt != "" ==> body == item.contentExcerpt
    ensures !TruthyText(item.fullContent) && item.contentExcerpt == "" ==> body == NoBody
  {
    if TruthyText(item.fullContent) then item.fullContent.value
    else if item.contentExcerpt != "" then item.contentExcerpt
    else NoBody
  }

  /** `[index] ` when an index is given, including 0; empty otherwise. */
  function CopyPrefix(index: Option<int>): (prefix: string)
    ensures index.None? <==> prefix == ""
  {
    match index
    case None => ""
    case Some(n) => "[" + IntToString(n) + "] "
  }

  /** `formatContentForCopy(item, index)`. */
  function FormatContentForCopy(item: ContentItem, index: Option<int>): string
  {
    CopyPrefix(index) + "问题：" + item.title
      + "\n链接：" + item.url
      + "\n作者：" + AuthorName(item)
      + "\n\n正文：\n" + CopyBody(item)
  }

  /** The text begins with the prefix and the title line, continues with the link line,
    * the author line and the body heading, in that order, and ends with the body. */
  lemma FormatLayout(item: ContentItem, index: Option<int>)
    ensures var text := FormatContentForCopy(item, index);
      var head := CopyPrefix(index) + "问题：" + item.title;
      var body := CopyBody(item);
      |head| + |body| <= |text|
      && text[..|head|] == head
      && text[|head|..|text| - |body|] == "\n链接：" + item.url + "\n作者：" + AuthorName(item) + "\n\n正文：\n"
      && text[|text| - |body|..] == body
  {
    var head := CopyPrefix(index) + "问题：" + item.title;
    var middle := "\n链接：" + item.url + "\n作者：" + AuthorName(item) + "\n\n正文：\n";
    var body := CopyBody(item);
    var text := FormatContentForCopy(item, index);
    assert text == head + middle + body;
  }

  /** The number in a given non-negative index can be read back from between the brackets. */
  lemma PrefixIndexReadable(n: nat)
    ensures var prefix := CopyPrefix(Some(n));
      && |prefix| >= 4
      && prefix[0] == '[' && prefix[|prefix| - 2..] == "] "
      && AllDigits(prefix[1..|prefix| - 2])
      && ParseNat(prefix[1..|prefix| - 2]) == n
  {
    var prefix := CopyPrefix(Some(n));
    assert prefix[1..|prefix| - 2] == NatToString(n);
    ParseNatToString(n);
  }
}
