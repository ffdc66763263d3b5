/** The size of a page (pintos/src/threads/vaddr.h). */
module Pages {

  const PGSIZE: nat := 4096
}
