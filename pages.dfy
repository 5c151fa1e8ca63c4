/** Value types shared by the crawler form, the results display and the home page. */
module Pages {

  datatype Option<+T> = None | Some(value: T)

  /** One crawled page as the client keeps it: the page's source URL and its Markdown text. */
  datatype CrawlResult = CrawlResult(url: string, content: string)
}
