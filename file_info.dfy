/** One row of the result list: where a matching file lies and how often the word occurs in it. */
module FileInfoModel {
  datatype FileInfo = FileInfo(filePath: string, fileName: string, count: int)
}
